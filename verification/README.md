# Verified models of the Scash core

This Dafny project models the stateful parts of the Scash client that are easiest to get subtly wrong, and proves
what they promise.

* **The address manager** (`src/addrman.cpp`, `src/addrman.h`). The class `CAddrMan` keeps one population of peers
  in six tables. `AddrBook` is the specification: a map from addresses to a peer and its place. `AddrTables` says when
  the six tables agree and which book they then represent; every method of the class is proved to take the book from
  one specified state to the next. `AddrBookSafety` proves what holds in every run, `AddrCheck` what a result of 0 of
  the manager's own check means, `AddrStore` and `AddrReload` that saving and reloading gives the same manager under
  new ids. `AddrManRuns` drives the class itself through any sequence of operations. `AddrOutcomes` says what the
  operations do in numbers, field by field, and `AddrVictims` whom a full bucket gives up. `AddrLoading` says what is
  read from streams that no manager wrote. `TriedChoice` is the choice of the entry that gives way in a full tried
  bucket, `TriedExample` a manager in which it goes wrong.
* **The streaming hash engines** (`src/fugue.c`, `src/blake.c`, `src/cubehash.c`, `src/groestl.c`, `src/jh.c`,
  `src/echo.c`, `src/bmw.c`). Compression and mixing functions are parameters; buffering, padding, counters, lengths
  and, for Fugue and CubeHash, the renamed state words are modelled as in the code and proved against one-pass
  specifications of the whole message. Each context has a ghost field `msg` with everything fed so far, and every
  close is specified by `msg` alone, so the way a message is split into updates cannot matter. `HashTexts`, `FugueLaws`
  and `CubeHashWords` take these specifications apart: padded texts byte by byte with their fields read back as numbers,
  rounds and closing loops word by word, and runs of states from the initial value to the digest.
* **Synchronised checkpoints** (`src/checkpoints.cpp`, with `AcceptBlock`, `AddToBlockIndex`, `SetBestChain` and
  `Reorganize` of `src/main.cpp`). A growing block tree, the main chain through it with its successor pointers, the
  code's walks, and a specification in terms of descent; theorems over all interleavings of block arrivals and
  checkpoint messages, whatever the disk and the database answer; and which block is the best one in a run.
* **Numbers and their texts** (`src/bignum.h`, `src/base58.h`). The MPI layout, the compact form of targets, 64- and
  256-bit integers, hexadecimal and Base58 text, with their round trips.
* **Locked pages** (`src/allocators.h`). Lock counts per page against the ranges that are locked, with the mask
  arithmetic proved on the bits.

`dafny verify dfyconfig.toml` checks the whole project.

## Reading guide

| topic | specification | code | theorems |
|---|---|---|---|
| address manager | `AddrTypes`, `AddrBook` | `AddrMan`, `TriedChoice`, `AddrCheck`, `AddrStore` | `AddrTables`, `AddrBookSafety`, `AddrCheck`, `AddrReload`, `AddrLoading`, `AddrManRuns`, `AddrOutcomes`, `AddrVictims`, `TriedChoice`, `TriedExample` |
| update loops | `Streams` (`Fed`, `Blocks`) | `Streams.Stream`, `CountedStreams.Context` | `Streams` |
| Fugue | `FugueRounds.Round`, `Fugue.Digest` | `FugueRounds.Case2`/`3`/`4`, `Fugue.Context` | `FugueRounds.CaseIsRound`, `FugueLaws` |
| BLAKE, ECHO | `Counters.Count`, `Hash` and `Digest` of each | `Blake.Context`, `Echo.Context` | `BlakePadding`, `HashTexts` |
| CubeHash, Groestl, JH, BMW | `Digest` of each | `Context` or `Close` of each | in the same files, `HashTexts`, `CubeHashWords` |
| all hashes | `Streams.Joined` | | `HashRuns` |
| checkpoints | `BlockTree`, `MainChain`, `Checkpoints` | `Checkpoints.SyncCheckpoints` | `MainChain`, `CheckpointRuns`, `BestChainRuns` |
| numbers | `Numerals`, `Mpi`, `Compact`, `Base58` | `BigNum.CBigNum`, `Base58` | in the same files, `NumberForms` |
| pages | `PageLocks.Count` | `PageLocks.LockedPageManager` | `Masks`, `PageLocks` |

Where the code and what it says of itself disagree, the code is followed, and the exact condition is proved:

* `SelectTried` says that it finds the least recently tried of the inspected entries. It returns the slot that this
  entry was drawn from, after another entry has been swapped into it. `TriedChoice.LeastRecentReturnedIff` says for
  every bucket, all last successes and all draws when no inspected entry was successful longer ago than the one in
  the returned slot, ties and entries that were not inspected included. `TriedExample.MoreRecentReturned` gives a
  consistent manager with a full bucket where it fails. The entry in the returned slot is the one that `Good_`
  displaces, and nothing proved about runs depends on which one that is.
* The successor pointer of a block is said to be null exactly off the longest chain. `SetBestChain` moves the best
  block even when a postponed block fails to connect, and then blocks below the best one have none.
  `MainChain.SwitchedCompleteIff` says exactly when the pointers stay complete, `MainChain.PostponedLost` gives an
  instance. The checkpoints stay in the main chain all the same (`CheckpointRuns.EnforcedRun`).
* `CheckInfo`: looking an address up with `operator[]` in the check creates it with id 0 when it is missing; the model
  does the same, and shows that a consistent manager is left unchanged.
* JH is defined for messages below 2^128 bits; the code's 64-bit block count makes the text that is hashed the one of
  JH exactly below 2^73 bits (`JH.WrittenIsPadded`), and digests can tell the difference from there on
  (`JH.LongerDiffers`, `JH.AtTheLimit`).
* `setvch` passes a size to OpenSSL as an `int` and writes it into four bytes. Numbers and Base58 texts survive
  exactly as long as an `int` can measure the bytes (`BigNum.VchRoundTrip`, `Base58.WrittenIsEncoded`,
  `Base58.StringRoundTrip`).
* `LockRange` and `UnlockRange` do not end for a range that touches the last page of the address space
  (`PageLocks.LoopEndsIff`).

## Model

| member | source | states |
|---|---|---|
| AddrTypes.GetTriedBucket | src/addrman.cpp:9-21 | a tried bucket, in range, out of the four that the key and the address group select; the hash is a parameter |
| AddrTypes.GetNewBucket | src/addrman.cpp:23-35 | a new bucket, in range, chosen by the key, the group of the address and the group of its source |
| AddrTypes.GetRandInt | src/addrman.cpp:135 | a random draw below a bound, as an arbitrary number reduced to the range |
| AddrMan.CAddrMan.constructor | src/addrman.h:609-619 | the empty manager is consistent and represents the empty book |
| AddrMan.CAddrMan.Find | src/addrman.cpp:80-91 | an id is found exactly for known addresses, and it is the id of that address |
| AddrMan.CAddrMan.Create | src/addrman.cpp:93-103 | the new entry gets the next id and the last place of the random order |
| AddrMan.CAddrMan.SwapRandom | src/addrman.cpp:105-123 | two places of the random order change their ids, back-pointers included; the asserts hold |
| AddrMan.CAddrMan.SelectTried | src/addrman.cpp:125-147 | the bucket becomes the specified shuffle, every drawn id being known as the assert demands; the result is the slot that the least recent inspected entry was drawn from, and it keeps the comment's promise exactly when the stated condition holds |
| TriedChoice.ShuffleAndChoose | src/addrman.cpp:129-146 | the loop computes the partial Fisher-Yates shuffle of the draws, and the slot drawn for the first entry of least last success among those inspected; its assert holds |
| TriedChoice.DrawnStays | src/addrman.cpp:133-138 | a drawn slot keeps, to the end of the shuffle, the entry that its draw picked from the bucket as it was |
| TriedChoice.OldestDraw | src/addrman.cpp:140-143 | the first of the draws that picks an entry of the least last success |
| TriedChoice.ShuffledPermutes | src/addrman.cpp:133-138 | the shuffle permutes the bucket |
| TriedChoice.LeastRecentReturnedIff | src/addrman.cpp:129-146 | no inspected entry was successful longer ago than the one in the returned slot, if and only if the draw of the least recent one was 0, or its slot was inspected later and holds a tie, or its slot was not inspected and holds an entry that is no more recent |
| TriedExample.MoreRecentReturned | src/addrman.cpp:203-231 | a consistent manager, a newcomer for a full tried bucket, and draws for which a more recently tried entry is returned |
| AddrMan.CAddrMan.FirstTerrible | src/addrman.cpp:154-172 | the first terrible member of a bucket in id order, if there is one |
| AddrMan.CAddrMan.OldestOfFour | src/addrman.cpp:174-187 | the member of least time among four drawn ones, the first of them in id order |
| AddrMan.CAddrMan.ShrinkNew | src/addrman.cpp:149-201 | one member leaves the bucket: the first in id order that was not tried in the last 60 seconds and is not healthy (seen at most 30 days back and ten minutes ahead, no three failures without a success, no ten with the last success over seven days back), if there is one; otherwise the one seen longest ago among the members at four drawn places; an entry without references disappears from every table |
| AddrMan.CAddrMan.Unreference | src/addrman.cpp:161-169 | dropping a reference: the entry leaves the bucket, and with its last reference every table |
| AddrTables.UnreferencedAgrees | src/addrman.cpp:161-169 | dropping a reference keeps the tables in agreement, in the middle of an addition too, and takes one bucket, or the whole entry, out of the book |
| AddrMan.CAddrMan.EraseFromNew | src/addrman.cpp:207-215 | the entry leaves all new buckets and its reference count comes down to 0 |
| AddrMan.CAddrMan.ReplaceTried | src/addrman.cpp:233-257 | the chosen tried entry gives its place to the new one and goes to a new bucket: its own if there is room, otherwise the one its successor came from |
| AddrMan.CAddrMan.MakeTried | src/addrman.cpp:203-259 | the entry leaves every new bucket and lands in the tried bucket that the key selects for its address; from a full bucket the entry in the slot that `SelectTried` returns goes to exactly one new bucket and the entry takes that slot of the shuffled bucket, from a bucket with room none goes and the entry comes behind the others; the random order stays, and the manager stays consistent |
| AddrMan.CAddrMan.FindBucket | src/addrman.cpp:288-304 | the first bucket holding the id when all are walked cyclically from a random start; none only if no bucket holds it |
| AddrMan.CAddrMan.Good | src/addrman.cpp:261-310 | field by field, exactly the named address and port: seen, succeeded and tried now, no failed attempts; a new entry moves from all its buckets to its tried bucket, and from a full one the entry that the draws single out goes to its own new bucket if that has room, otherwise to the first bucket that held its successor, walking around from the drawn one; all others are untouched, and so is the random order; the tried buckets stay except that one, where the entry takes the last place or the slot of the one that gives way |
| AddrMan.CAddrMan.Add | src/addrman.cpp:312-368 | field by field: an address that cannot be routed changes nothing; an unknown one gets one entry with its penalised time in the bucket of its groups; a known one is merged, and enters one more bucket exactly if the news is newer, it is not tried, in fewer than four buckets, not in this one, and the draw is divisible by two to the number of its buckets; only a bucket of 64 gives up a member, which is the one that `ShrinkNew` singles out, and nobody else changes; in the random order a new entry comes last, and the place of one that leaves the manager goes to the entry that is then last |
| AddrMan.CAddrMan.Attempt | src/addrman.cpp:370-387 | exactly the named peer was last tried now, with one attempt more; nothing else changes |
| AddrMan.CAddrMan.Connected | src/addrman.cpp:509-528 | the time of exactly the named peer is set when it lies more than twenty minutes back; nothing else changes |
| AddrMan.CAddrMan.GetAddr | src/addrman.cpp:493-507 | exactly min(2500, 23 percent) pairwise distinct known addresses, the front of the random order after one exchange for each draw; the order is permuted and stays the inverse of its back-pointers, the book is unchanged |
| AddrOutcomes.TerribleIff | src/addrman.cpp:37-56 | terrible means not tried in the last minute, and not healthy, in seconds and counts |
| AddrOutcomes.ShrinkMayGo | src/addrman.cpp:149-201 | a victim that was just tried has only just tried or healthy members beside it; if some member is neither, so is the victim not |
| AddrOutcomes.AddDoes | src/addrman.cpp:312-368 | the step of `Add_` on the book, in numbers, for every address, time, draw and victim |
| AddrOutcomes.RefreshedMerges | src/addrman.cpp:323-334 | what merging makes of each field of a known peer: services joined, the time moved on when it is an hour, or for old announcements a day, and the penalty behind |
| AddrOutcomes.GoodDoes | src/addrman.cpp:261-310 | the step of `Good_` on the book, in numbers, for every address, time, start and displaced entry |
| AddrOutcomes.PromotedDisplaces | src/addrman.cpp:203-259 | who moves where when an entry becomes tried |
| AddrOutcomes.NewChoice | src/addrman.cpp:23-35 | what one address range announces goes to at most 32 of the 256 new buckets, and the addresses of one range among it to a single one |
| AddrOutcomes.TriedChoices | src/addrman.cpp:9-21 | the addresses of one range go to at most 4 of the 64 tried buckets, by address and port |
| AddrVictims.VictimLeaves | src/addrman.cpp:149-201 | who leaves a full new bucket, by id order, times and the four draws modulo the number of members |
| AddrVictims.LeavesAlike | src/addrman.cpp:149-201 | the choice depends on the members of the bucket alone |
| AddrVictims.GivesWayAlike | src/addrman.cpp:125-147 | the choice in a tried bucket depends on its entries alone |
| AddrTables.EntryShown | src/addrman.cpp:434-491 | what the tables say about an id is what the book says about its address: place, buckets, reference count |
| AddrTables.SwappedAgrees | src/addrman.cpp:105-123 | swapping keeps the agreement and the book |
| AddrTables.EnteredAgrees | src/addrman.cpp:358-366 | entering a bucket completes the reference that was counted before |
| AddrTables.MovedPromotes | src/addrman.cpp:203-224 | a move into a tried bucket with room keeps the agreement and is the promotion of the book |
| AddrTables.DisplacedPromotes | src/addrman.cpp:203-259 | a move that displaces a tried entry keeps the agreement and is the promotion of the book with one eviction |
| AddrTables.BookSize | src/addrman.cpp:439-463 | the random order lists every known address once, and its length is the sum of the two counters |
| AddrBookSafety.StepKeepsInv | src/addrman.cpp:203-368 | every operation keeps the bounds: 64 entries a bucket, at most 4 new buckets an address, tried entries in the bucket that the key selects |
| AddrBookSafety.RunKeepsInv | src/addrman.h:100-145 | these bounds hold in every state of every run from the empty manager |
| AddrBookSafety.Capacity | src/addrman.h:103 | a manager never holds more than 256*64 + 64*64 addresses |
| AddrBookSafety.GroupBound | src/addrman.h:116-118 | the addresses of one group never take more than 4 tried buckets, 256 places |
| AddrBookSafety.GoodKeepsKnown | src/addrman.cpp:261-310 | `Good_` never forgets or adds an address |
| AddrBookSafety.EvictedFits | src/addrman.cpp:244-252 | the entry that gives way lands in a new bucket that has room, its successor having just left one |
| AddrBookSafety.TriedOnlyByGood | src/addrman.cpp:261-310 | an entry becomes tried only when `Good_` names its exact address and port |
| AddrBookSafety.TriedSurvivesStep | src/addrman.cpp:149-368 | no operation forgets a tried address |
| AddrBookSafety.ForgottenOnlyFromNew | src/addrman.cpp:149-259 | an address that was tried and is later unknown was demoted to the new table in between |
| AddrBookSafety.RunKeepsTimes | src/addrman.cpp:448-459 | with positive times passed in, every run keeps the times that the check demands |
| AddrMan.CAddrMan.CheckInfo | src/addrman.cpp:443-459 | the tests on one entry, the creation of a missing address included |
| AddrMan.CAddrMan.Check | src/addrman.cpp:434-491 | the result is 0 exactly when the stated conditions hold; a manager with a sound address index is not changed |
| AddrCheck.CheckTried | src/addrman.cpp:465-486 | the loop accepts exactly when the tried buckets list the tried ids, each once |
| AddrCheck.CheckNew | src/addrman.cpp:475-487 | the loop accepts exactly when each id occurs in as many new buckets as its reference count |
| AddrCheck.CheckComplete | src/addrman.cpp:434-491 | a result of 0, together with what the check does not look at, is the same as consistency with sane times |
| AddrCheck.BookChecks | src/addrman.cpp:434-491 | in every consistent manager with sane times the check finds nothing |
| AddrMan.CAddrMan.Serialize | src/addrman.h:374-488 | what is written: new entries and tried entries in id order, and each new bucket as positions in the first list |
| AddrMan.CAddrMan.Unserialize | src/addrman.h:491-605 | what is built from any stream that can be read to its end, also one with a foreign bucket count or with negative numbers, whose loops do not run |
| AddrReload.LoadedRenumbers | src/addrman.h:383-426 | reading back what a consistent manager wrote gives the same manager with its ids renumbered: every field saved, every bucket, every reference count, nothing lost |
| AddrStore.RenumberedAgrees | src/addrman.h:500-603 | a renumbered consistent manager is consistent and represents the same book, last tries apart |
| AddrReload.ReloadRoundTrip | src/addrman.h:383-603 | saving and reloading any consistent manager gives a consistent manager with the same book, last tries apart |
| AddrLoading.NativeBuckets | src/addrman.h:587-603 | from any stream with 256 buckets, whoever wrote it, an id is in the buckets that list it until it has been listed four times, and its reference count is the number of its listings, at most four |
| AddrLoading.ForeignBuckets | src/addrman.h:553-603 | from a stream with another number of buckets every new entry is in the one bucket that the key selects for it, with one reference, whatever is listed |
| AddrLoading.TriedBuckets | src/addrman.h:567-586 | from any stream a tried bucket takes the entries that select it until it holds 64, and the counter goes down by the others |
| AddrLoading.TriedEntryRead | src/addrman.h:568-585 | an entry that finds room gets the next id, the next place of the random order and the next slot of its bucket |
| AddrManRuns.Apply | src/addrman.cpp:93-528 | one operation on the manager itself, saving and reloading included, is one step of its book |
| AddrManRuns.Drive | src/addrman.cpp:93-528 | any sequence of operations on a new manager is a run of its book, so all that is proved of runs holds of the manager; its random order has one place for each counted entry, at most 256*64 + 64*64, and no bucket holds more than 64 |
| AddrManRuns.DriveAndCheck | src/addrman.cpp:434-491 | after any sequence of operations with positive times the check returns 0, and the manager is consistent and within its bounds |
| AddrManRuns.SaveAndLoad | src/addrman.h:374-605 | writing the manager and reading it back gives a consistent manager with the same book, last tries apart |
| Streams.FedTwice | src/blake.c:905-941 | two updates in a row are one update with the joined data |
| Streams.SplittingIrrelevant | src/blake.c:905-941 | however a message is split into updates, empty ones included, the state is the same |
| Streams.FedIsBlocks | src/blake.c:905-941 | the buffered update takes in block after block of the message and buffers the rest |
| Streams.BlocksRun | src/blake.c:905-941 | block after block is a run of states, each from the one before it and the next bytes of the message |
| Streams.Stream.Core | src/echo.c:765-798 | the update loop, with its early return, computes the specified state for any data |
| FugueRounds.CaseIsRound | src/fugue.c:743-917 | each switch case, which renames the state words, is one plain round with a physical rotation, seen from the front of that case; all three variants, any mixing function |
| FugueRounds.MixTimesView | src/fugue.c:399-441 | mixing under renamed words is mixing on the rotated state, any number of times |
| FugueLaws.RoundRun | src/fugue.c:399-441 | one round word by word, for any super-mix: which words the message word and the others go into, then two, three or four turns by three words with three sums at the front, three in the middle and one mixing each |
| FugueLaws.TakeInWords | src/fugue.c:399-421 | taking a message word in, word by word |
| FugueLaws.RotateAndMixWords | src/fugue.c:423-441 | one turn and mixing, word by word |
| Fugue.Context.constructor | src/fugue.c:660-677 | zeros, then the initial value, nothing fed |
| Fugue.Context.Core | src/fugue.c:698-741 | an update appends its data to the message: the resumed switch, the held-back word of up to four bytes and the bit count stay those of the plain algorithm |
| Fugue.Context.Rounds | src/fugue.c:734-741 | the loop through the switch takes in every word but the last one to four bytes, resuming at the stored case |
| Fugue.Context.FillBuffer | src/fugue.c:939-951 | the closing buffer is the padding, whatever the buffer held before |
| Fugue.Context.Unrotate | src/fugue.c:953-955 | the copy that undoes the renaming gives the state of the plain algorithm |
| Fugue.Context.Close | src/fugue.c:965-1110 | the digest is that of one pass over the padded message with plain rounds, and the context starts afresh; what that digest is word by word, `FugueLaws.DigestRun` and `FugueLaws.CloseRun` say |
| FugueLaws.CloseRun | src/fugue.c:965-1110 | the close is a run of 36, 57 or 84 states with one mixing each, every one given word by word from the one before it, for any super-mix: the first loop, then thirteen passes whose steps combine the first word into the fifth and one word of each further column and turn by a column, the last by one word less; every digest word is given from the last state |
| FugueLaws.OnePass | src/fugue.c:976-1087 | one pass of the second loop is two, three or four steps, each as stated |
| FugueLaws.BlendWords | src/fugue.c:1063-1068 | one such step, word by word |
| FugueLaws.UnmixedPass2 | src/fugue.c:976-985 | without the super-mix a pass of Fugue-224 and 256 turns the state by 29 words; which words the two first words go into |
| FugueLaws.UnmixedPass3 | src/fugue.c:1015-1031 | without the super-mix a pass of Fugue-384 turns the state by 35 words; which words the three first words go into |
| FugueLaws.UnmixedPass4 | src/fugue.c:1062-1087 | without the super-mix a pass of Fugue-512 turns the state by 35 words; which words the four first words go into |
| FugueLaws.PaddedText | src/fugue.c:923-951 | the text that is hashed: the message, its last bits, as few zeros as fill a word, and eight bytes that read as the number of message bits modulo 2^64 |
| FugueLaws.DigestRun | src/fugue.c:660-1110 | the whole hash is a run of states: zeros and the initial value, one round for each word of the text, four bytes read with the highest first, and the close |
| Blake.Advance | src/blake.c:829-830 | adding a block to the two counter words, with carry, adds its bits to the count modulo the square of the word |
| Blake.PresetZero | src/blake.c:962-964 | from the preset for a block without message bits the next addition gives 0 |
| Blake.PresetWrapped | src/blake.c:965-967 | from the preset for a zero low word the next addition gives the count of the message bits |
| Blake.PresetBack | src/blake.c:968-970 | from the preset for every other last block the next addition gives the count of the message bits |
| Blake.MessageBlocks | src/blake.c:905-941 | over blocks full of message bits the running counter is the specified one |
| Blake.LengthField | src/blake.c:959-960 | the two length words are the length modulo 2^128 or 2^64, the highest byte first |
| Counters.LastCount | src/blake.c:962-970 | the counter of the block in which the message ends is the message length, or 0 if no message bit is in it; a block after it has 0 |
| Blake.Context.Update | src/blake.c:905-941 | an update appends its data to the message |
| Blake.Context.Preset | src/blake.c:962-970 | the three branches set the counter so that the next addition gives the specified count |
| Blake.Context.Close | src/blake.c:838-994 | the digest is that of the padded message, each compression seeing the count of message bits so far, or 0 for a block of padding only; all four variants |
| BlakePadding.PaddedBits | src/blake.c:943-994 | the padded text is the message, a one, the fewest zeros that lead to 447 or 895 bits modulo the block, the marker and the length (section 2.2.3 of the BLAKE submission to SHA-3) |
| Bytes.EncBeReads | src/sph_types.h:1654-1697 | written bytes, the highest first, read back in base 256 as the number modulo 256 to their number |
| Bytes.EncLeReads | src/sph_types.h:1485-1520 | the same with the lowest first |
| HashTexts.BlakeText | src/blake.c:943-985 | the padded text starts with the message, is as short as one, marker and length field allow, and its last 8 or 16 bytes read as the number of message bits modulo 2^64 or 2^128 |
| HashTexts.BlakeRun | src/blake.c:829-994 | the digest from the padded text: each chaining value comes from the one before it, the next 64 or 128 bytes, and the number of message bits so far in two words; the digest bytes read back as the words of the last one |
| CubeHash.RoundEven | src/cubehash.c:267-364 | an even round of the code is a round of the specification up to renamed words, for every state |
| CubeHash.RoundOdd | src/cubehash.c:366-463 | an odd round of the code, on renamed words, is a round of the specification with the words back in place |
| CubeHash.SixteenRounds | src/cubehash.c:473-532 | sixteen rounds of the specification, whatever the loop is unrolled to |
| CubeHashWords.RoundWords | src/cubehash.c:267-463 | a round by word index: two additions, two turns by 7 and 11 bits, two combinations, and swaps of the words whose indices differ in one bit |
| CubeHash.Finish | src/cubehash.c:596-600 | the eleven times sixteen rounds of the close are the last block and the finalisation of the specification |
| CubeHash.Context.Update | src/cubehash.c:541-576 | an update appends its data to the message |
| CubeHash.Context.Close | src/cubehash.c:578-604 | the digest is that of the padded message |
| CubeHashWords.InputWords | src/cubehash.c:256-265 | a block goes into the first eight words, four bytes each, the lowest first |
| CubeHashWords.OutputReads | src/cubehash.c:601-604 | the digest bytes read back as the words |
| CubeHashWords.DigestRun | src/cubehash.c:534-604 | the whole hash as a run of states: sixteen rounds for each 32 bytes, one bit of the last word flipped, 160 rounds, and the first words, read back from the digest |
| HashTexts.CubeHashText | src/cubehash.c:588-592 | the padded text is the message, its last bits, a one and as few zeros as fill the block |
| CountedStreams.CountedBlocks | src/groestl.c:2934-2941 | the count in the context is the number of blocks, modulo 2^64 |
| CountedStreams.Context.Update | src/groestl.c:2909-2949 | an update appends its data to the message |
| Groestl.CountField | src/groestl.c:2970-2988 | the count in the padding is that of all blocks of the padded message, modulo 2^64 |
| Groestl.Close | src/groestl.c:2814-3011 | the digest is that of the message, a one bit, zeros and the true number of blocks, and the context starts afresh; both widths |
| HashTexts.GroestlText | src/groestl.c:2952-3000 | the padded text is the message, its last bits, a one, as few zeros as possible, and eight bytes that read as the number of its blocks modulo 2^64 |
| HashTexts.GroestlRun | src/groestl.c:2909-3011 | each state comes from the one before it and the next 64 or 128 bytes; the digest is the end of what the output transformation makes of the last |
| JH.LengthWords | src/jh.c:974-977 | the two length words are the bit length modulo 2^73 |
| JH.LengthExact | src/jh.c:974-977 | the two length words together are the true bit length if and only if the message has fewer than 2^73 bits |
| JH.WrittenIsPadded | src/jh.c:974-986 | the text that is hashed is the message, a one bit, zeros and its length in 128 bits if and only if the message has fewer than 2^73 bits, counted modulo 2^128 |
| JH.LongerDiffers | src/jh.c:974-998 | for every message the digests of the code and of JH agree under a compression that keeps the last block exactly below 2^73 bits, counted modulo 2^128 |
| JH.AtTheLimit | src/jh.c:974-998 | a message of 2^73 bits, and a compression for which the digest is not the one of JH |
| JH.Close | src/jh.c:953-1000 | the digest is that of the message, a one bit, zeros and the length cut to 73 bits: one more block after whole blocks, otherwise two; below 2^73 bits it is the digest of JH; the context starts afresh |
| HashTexts.JHText | src/jh.c:953-998 | both texts byte by byte: the same message, one bit and zeros, and sixteen bytes that read as the number of message bits modulo 2^73 for the code, modulo 2^128 for JH |
| HashTexts.JHRun | src/jh.c:891-1000 | each state comes from the one before it and the next 64 bytes; the digest is the end of the last one as it is written |
| Bmw.Context.Core | src/bmw.c:771-807 | the two chaining buffers change places with each block, and `H` holds the current value at the end, whichever buffer that was |
| Bmw.Context.Update | src/bmw.c:771-807 | an update appends its data to the message and counts its bits modulo 2^64 |
| Bmw.LengthField | src/bmw.c:829-830 | the length field is the bit count of the whole message modulo 2^64 |
| Bmw.Context.Close | src/bmw.c:675-839 | the digest is that of the padded message, one more compression with the final constant included; both widths |
| HashTexts.BmwText | src/bmw.c:815-832 | the padded text is the message, its last bits, a one, as few zeros as possible, and eight bytes that read, the lowest first, as the number of message bits modulo 2^64 |
| HashTexts.BmwRun | src/bmw.c:771-839 | each chaining value comes from the one before it and the next block; the last one, written as a block whose bytes read as its words, and the final constant give the words that the digest bytes read as |
| Echo.IncrCounts | src/echo.c:637-644 | the four counter words, with carries, count modulo 2^128 |
| Echo.MessageBlocks | src/echo.c:730-798 | over blocks full of message bits the running counter is the specified one |
| Echo.CounterBytes | src/echo.c:885-888 | the four words as bytes are the length field |
| Echo.Context.Update | src/echo.c:730-798 | an update appends its data to the message |
| Echo.Context.Close | src/echo.c:800-916 | the digest is that of the padded message, each compression seeing the count of message bits so far, or 0 for a block of padding only, and the context starts afresh; both widths |
| HashTexts.EchoText | src/echo.c:800-916 | the padded text ends in two bytes that read as the digest size in bits and sixteen that read as the number of message bits modulo 2^128, the lowest first |
| HashTexts.EchoRun | src/echo.c:730-916 | each state comes from the one before it, the next 192 or 128 bytes, and the number of message bits so far in four words; the digest is the front of the last one |
| HashRuns.FugueOf | src/fugue.c:660-1110 | for every message and every way of splitting it into updates, the digest is that of the joined message |
| HashRuns.BlakeOf | src/blake.c:790-994 | the same for BLAKE |
| HashRuns.CubeHashOf | src/cubehash.c:534-604 | the same for CubeHash, whatever the rounds are unrolled to |
| HashRuns.GroestlOf | src/groestl.c:2737-3011 | the same for Groestl |
| HashRuns.JHOf | src/jh.c:891-1000 | the same for JH, below 2^73 bits for the digest of JH itself |
| HashRuns.BmwOf | src/bmw.c:613-839 | the same for BMW |
| HashRuns.EchoOf | src/echo.c:646-916 | the same for ECHO |
| BlockTree.OneAtEachHeight | src/checkpoints.cpp:114-125 | a block has one ancestor at each height, which is what the walks rely on |
| BlockTree.DescentKept | src/main.cpp:2031-2035 | descent between known blocks is the same after other blocks have arrived |
| MainChain.ForkIsHighest | src/main.cpp:1673-1685 | the block where the walks from the best and the new block meet is the highest common ancestor, and they fail exactly when there is none |
| MainChain.IntermediateOnWay | src/main.cpp:1827-1831 | the block that the walk ends at comes before the new one, has more trust than the best block if anything was postponed, and its parent has not |
| MainChain.SwitchedSucceeds | src/main.cpp:1798-1845 | `SetBestChain` succeeds exactly when the first transaction does and the two branches have a common root |
| MainChain.SwitchedKeepsPointers | src/main.cpp:1748-1788 | after `SetBestChain` every successor pointer still leads to a child that is the best block or before it |
| MainChain.SwitchedKeepsMain | src/main.cpp:1798-1878 | a block of the main chain from which the new best block descends stays in the main chain by the code's own test, even if postponed blocks fail to connect |
| MainChain.InMainDescends | src/main.h:1328-1331 | a block that passes the test of `IsInMainChain` is the best block or before it |
| MainChain.SwitchedCompleteIff | src/main.cpp:1843-1872 | the pointers of the new chain are complete, as documented, if and only if the new block is a child of the best one or every postponed block connects |
| MainChain.PostponedLost | src/main.cpp:1843-1872 | five blocks for which they are not |
| Checkpoints.SyncCheckpoints.FindFork | src/main.cpp:1673-1685 | the two nested walks find the fork, or fail on a missing parent |
| Checkpoints.SyncCheckpoints.Reorganize | src/main.cpp:1669-1757 | the pointers above the fork are dropped and those of the new branch set, or nothing changes |
| Checkpoints.SyncCheckpoints.SetBestChain | src/main.cpp:1798-1878 | the whole new main chain, for every answer of the disk and the database: one block on top, or a reorganisation up to the first block of more trust and then the postponed blocks as far as they connect |
| Checkpoints.SyncCheckpoints.AddToBlockIndex | src/main.cpp:1996-2048 | the block enters the index one higher than its parent and with its own trust added; it becomes the best block exactly when it is committed, its chain has more trust than the best one, the first transaction succeeds and the chains have a common root; otherwise best block and pointers stay; the answer is false exactly when the writes fail it |
| Checkpoints.SyncCheckpoints.IsInMainChain | src/main.h:1328-1331 | the block has a successor or is the best block |
| Checkpoints.SyncCheckpoints.TraceBack | src/checkpoints.cpp:120-125 | the walk to a height ends at the one ancestor there; it never meets a missing parent |
| Checkpoints.SyncCheckpoints.ValidateSyncCheckpoint | src/checkpoints.cpp:101-141 | true exactly for strict descendants of the current checkpoint; a block is marked invalid exactly when it is neither before nor after it |
| Checkpoints.SyncCheckpoints.WriteSyncCheckpoint | src/checkpoints.cpp:143-159 | the checkpoint changes only when both database calls succeed |
| Checkpoints.SyncCheckpoints.AcceptPendingSyncCheckpoint | src/checkpoints.cpp:161-201 | the whole new state for every answer of disk and database; a checkpoint whose block is unknown goes on waiting, one that is no strict descendant is dropped with its message, one that is taken leaves nothing waiting and its message to relay, one that disk or database fail goes on waiting |
| Checkpoints.SyncCheckpoints.ProcessSyncCheckpoint | src/checkpoints.cpp:403-452 | the whole new state for every message and every answer of disk and database; a signed message for an unknown block waits with its hash, one that is taken leaves nothing waiting, one that is refused leaves alone what waits, one that is not signed changes nothing |
| Checkpoints.SyncCheckpoints.CheckSync | src/checkpoints.cpp:220-245 | true exactly on the test network, for descendants above the checkpoint, for the checkpoint at its height and for known blocks below it |
| Checkpoints.SyncCheckpoints.AcceptBlock | src/main.cpp:2147-2237 | what an arriving block does: nothing when it is known, without a parent or refused; otherwise it is indexed and follows the rule for the best block, unless a known checkpoint was waiting; the best block is then the new one, the old one or that checkpoint |
| CheckpointRuns.StepMoves | src/checkpoints.cpp:161-452 | in every step the checkpoint stays or moves to a strict descendant, and known blocks stay known |
| CheckpointRuns.CheckpointsChain | src/checkpoints.cpp:161-452 | the checkpoints of every run form one chain |
| CheckpointRuns.PassedDescendsFromAll | src/checkpoints.cpp:220-245 | a block that passes above the checkpoint descends from the current and every earlier checkpoint of the run |
| CheckpointRuns.AdoptedExactly | src/checkpoints.cpp:403-452 | a message is taken exactly when it is signed, names a strict descendant, the block is in the main chain or the disk and the database let the chain move to it, and the checkpoint is written; then the checkpoint is in the main chain by the code's own test |
| BestChainRuns.PendingExactly | src/checkpoints.cpp:161-201 | a waiting checkpoint is taken exactly when its block is a strict descendant of the current one, in the main chain or the disk and the database let the chain move to it, and it is written |
| BestChainRuns.ProcessedElse | src/checkpoints.cpp:403-452 | when a message moves the main chain, even if the checkpoint is not written afterwards, and exactly when it marks a block as invalid |
| BestChainRuns.PendingElse | src/checkpoints.cpp:161-201 | the same for a checkpoint that was waiting |
| BestChainRuns.AnnouncedThenDelivered | src/checkpoints.cpp:403-413 | in every run, a signed message for an unknown block waits; when the block arrives later on a branch of the checkpoint, no other signed message coming between, and disk and database do their part, it is the checkpoint, its message is the one to relay, and nothing waits |
| BestChainRuns.KnownBlockPasses | src/checkpoints.cpp:220-245 | a known block passes on its own parent exactly on the test network, below the height of the checkpoint, or as its descendant |
| CheckpointRuns.NewBlockPasses | src/checkpoints.cpp:220-245 | an unknown block passes exactly on the test network or on a descendant of the checkpoint |
| CheckpointRuns.MessagesMatch | src/checkpoints.cpp:186-194 | in every run the message kept for relaying announces the current checkpoint, and the waiting one the pending checkpoint |
| CheckpointRuns.MainChainLeadsToBest | src/main.h:1328-1331 | in every run, checkpoints enforced or not, a block that passes the main-chain test is the best block or before it |
| CheckpointRuns.EnforcedRun | src/main.cpp:2184-2197 | on the main network with checkpoints enforced, every checkpoint of the run stays in the main chain by the code's own test of the successor pointer, through all reorganisations and failed connections; the best block descends from it, and so does every block added later |
| BestChainRuns.HeaviestRun | src/main.cpp:2046-2048 | in every run of arriving blocks whose writes succeed, no checkpoint being taken, no known block has more chain trust than the best block, and the trust of the best block never falls |
| CheckpointRuns.Drive | src/checkpoints.cpp:161-452 | the code goes through the states of the specified run, for every sequence of blocks and messages; an enforced checkpoint is still in its main chain at the end |
| Mpi.ValueOfBody | src/bignum.h:265-290 | reading the bytes written for an integer, negative and zero included, gives the integer |
| Mpi.BodyOfValue | src/bignum.h:265-290 | writing what was read gives the bytes back if and only if they were the shortest ones |
| BigNum.CBigNum.setint64 | src/bignum.h:136-177 | every 64-bit integer is stored exactly, the most negative one included |
| BigNum.CBigNum.setuint256 | src/bignum.h:221-247 | every 256-bit number is stored exactly |
| BigNum.CBigNum.getuint256 | src/bignum.h:249-262 | the magnitude modulo 2^256, so what `setuint256` stored comes back |
| BigNum.CBigNum.setvch | src/bignum.h:265-278 | the value of little-endian signed bytes; of a size that an `int` cannot measure, what the two 32-bit sizes let through |
| Mpi.Framed | src/bignum.h:265-278 | bytes with their own length in front are read whole, in part or not at all, by their number modulo 2^32 |
| BigNum.CBigNum.getvch | src/bignum.h:280-290 | the shortest little-endian signed bytes |
| BigNum.VchReturns | src/bignum.h:265-290 | the bytes of an integer are read as the integer if and only if an `int` can measure them with their length field |
| BigNum.VchRoundTrip | src/bignum.h:265-290 | `setvch` of `getvch`, the two methods, is the number, for every integer, if and only if an `int` can measure the bytes |
| BigNum.CBigNum.SetCompact | src/bignum.h:292-302 | the value of every 32-bit compact form |
| BigNum.CBigNum.GetCompact | src/bignum.h:304-315 | the compact form of every number, the size wrapping in its byte |
| NumberForms.CompactFormula | src/bignum.h:292-302 | a compact word stands for its low 23 bits times 256 to the size less three, bits below one cut off, and bit 23 is the sign |
| NumberForms.FirstTarget | src/bignum.h:292-302 | the compact target 0x1d00ffff is 0xffff times 256 to the 26 |
| Compact.RoundedLoss | src/bignum.h:292-315 | a number of at most 255 bytes goes through the compact form without growing, and loses less than one part in 2^15 |
| Compact.RoundedOnce | src/bignum.h:292-315 | going through the compact form again changes nothing more, for positive and negative numbers |
| Compact.RoundedMonotone | src/bignum.h:292-315 | a larger number has a compact value at least as large |
| Compact.CompactRoundTrip | src/bignum.h:292-315 | a compact form survives being read and written again if and only if it is canonical |
| BigNum.CBigNum.SetHex | src/bignum.h:317-345 | the value of a hexadecimal text, with space, sign, prefix and trailing text |
| NumberForms.HexForms | src/bignum.h:317-345 | any spaces, a minus sign or none, `0x`, `0X` or nothing, spaces behind a prefix, hexadecimal digits, and anything that is no digit behind them: the number of the digits with the sign |
| NumberForms.HexCodes | src/bignum.h:334 | digits, small and capital letters by their codes |
| BigNum.CBigNum.ToString | src/bignum.h:347-371 | the digits of the magnitude in the base, a minus sign in front of a negative number |
| BigNum.HexRoundTrip | src/bignum.h:317-376 | `SetHex` of `GetHex` is the number, for every integer |
| Base58.EncodeBase58 | src/base58.h:27-65 | a one for each leading zero byte, then the digits in base 58 of the number that `setvch` keeps; it is the text of the bytes exactly when nothing is lost |
| Base58.EncodedReads | src/base58.h:27-65 | the letters, by their codes, are base 58 digits of the number that the bytes stand for, behind one letter for each leading zero byte |
| Base58.WrittenIsEncoded | src/base58.h:27-65 | nothing is lost if and only if an `int` can measure the bytes or they are all zero |
| Base58.DecodeBase58 | src/base58.h:75-120 | the bytes of a text with space around it; failure, with an empty result, exactly when something else follows the letters |
| Base58.DecodeEncode | src/base58.h:27-120 | decoding the text of any bytes gives the bytes, leading zeros and set top bits included |
| Base58.EncodeDecode | src/base58.h:27-120 | encoding what any text decodes to gives the text without the space around it |
| Base58.TextRoundTrip | src/base58.h:27-120 | every text of alphabet characters decodes, and encoding gives it back |
| Base58.EncodedLength | src/base58.h:44-46 | the text of n bytes never exceeds the n * 138 / 100 + 1 characters that are reserved |
| Base58.EncodeBase58Check | src/base58.h:132-139 | the text of the bytes and their checksum, exactly when nothing is lost in the encoder |
| Base58.DecodeBase58Check | src/base58.h:143-160 | the bytes of a text whose checksum is right; failure, with an empty result, otherwise |
| Base58.CheckRoundTrip | src/base58.h:132-160 | decoding with checksum undoes encoding with checksum, for any hash function |
| Base58.CheckAcceptsOwn | src/base58.h:143-160 | only texts that the encoder writes are accepted, space around them apart |
| Base58.CBase58Data.SetString | src/base58.h:210-226 | version and data of an accepted text, or nothing |
| Base58.CBase58Data.ToString | src/base58.h:233-238 | the text of version and data with checksum, exactly when nothing is lost in the encoder |
| Base58.StringRoundTrip | src/base58.h:210-238 | `SetString` of `ToString` restores version and data, if and only if nothing is lost in the encoder |
| Masks.PowerOfTwo | src/allocators.h:49 | a positive number whose bitwise and with its predecessor is zero is a power of two |
| Masks.Masked | src/allocators.h:50 | the bitwise and with the complement of a power of two less one takes off the low bits |
| PageLocks.MaskIsPage | src/allocators.h:49-60 | the page mask rounds an address down to its page, and pages tile the address space |
| PageLocks.RangePages | src/allocators.h:58-61 | the pages from first to last are exactly the aligned ones that the range overlaps |
| PageLocks.LoopEndsIff | src/allocators.h:60-63 | the loop over a range ends if and only if the range lies below the last page of the address space |
| PageLocks.LockedPageManager.LockRange | src/allocators.h:55-76 | the range becomes live, and every page again counts the live ranges on it |
| PageLocks.LockedPageManager.UnlockRange | src/allocators.h:78-99 | the range is live once less, every page again counts the live ranges on it, and the assertion in the loop holds |
| PageLocks.LockedPageManager.LockedExactly | src/allocators.h:54-99 | a page is locked exactly when a live range overlaps it, and no page when all ranges are unlocked |

## Left out

- The C code's other configurations: the branches for platforms without 64-bit integers (`SPH_64` unset) and the
  small-footprint variants.
- The contents of hash, compression, S-box and T-table functions, and of `hamsi.c`; the mixing functions are parameters.
- AddrMan: `Select_` and `GetChance` (floating point, and a loop that ends only with probability 1), and the overflow of
  the `int` counters `nIdCount` and `nAttempts`.
- AddrMan.CAddrMan.Serialize: the file is a structured value; the byte layout of an entry and the version number are not
  modelled, and neither are streams that end too early.
- AddrMan.CAddrMan.Unserialize: no capacity bound is claimed for a stream with a foreign bucket count, because the code
  does not keep one there.
- Random numbers, the clock, the hash functions, the database, the disk, signatures and the network are parameters.
- Locks and threads: each operation is one atomic step, as its critical section makes it.
- AddrMan.CAddrMan.CheckInfo: which of its error codes is returned is not stated, only when it is 0.
- AddrMan.CAddrMan.Check: which of its error codes is returned is not stated, only when it is 0.
- Fugue.Context.Close: the digest is a list of words, which the code writes with the highest byte first.
- Groestl.Close: the output transformation and its truncation are one parameter.
- Echo.Context.Close: the writing of the state words is a parameter.
- JH.Close: the writing of the state words is a parameter.
- The contexts of BLAKE, CubeHash and BMW are initialised again by the callers of their closing functions, which are not
  modelled.
- CubeHash.Context.Update: the rounds that a full block goes through are the function that `SixteenRounds` is proved to
  compute, not a call of the method.
- Checkpoints: `ResetSyncCheckpoint`, which may move the checkpoint back, `AutoSelectSyncCheckpoint`, relaying, orphan
  blocks and the hardened checkpoints.
- Checkpoints.SyncCheckpoints.SetBestChain: the first block of a node without a genesis block, the connection of
  transactions and the memory pool; whether the writes succeed is an answer.
- Checkpoints.SyncCheckpoints.AcceptBlock: the checks of a block that have nothing to do with checkpoints are one
  answer.
- Block heights are unbounded; no block has hash 0.
- BigNum: OpenSSL's own limit on the size of a number, and the flag of a negative zero, which reads as zero here;
  `setuint64`, `getuint64` and arithmetic operators would only add easy members.
- BigNum.CBigNum.getvch: the `int` that OpenSSL measures a number with, which no number that it holds exceeds.
- PageLocks.LockedPageManager.LockRange: ranges on which the loop does not end (`PageLocks.LoopEndsIff`), ranges that
  run over the end of the address space, and the overflow of a page's `int` count; the operating system's lock is taken
  to succeed, as the code does not look at its result.
- PageLocks.LockedPageManager.UnlockRange: the same ranges, and ranges that are not locked, which its assertion refuses.
- `chartdata`, `coincontrol`, `mruset` and `alert`: small containers without invariants across operations.
