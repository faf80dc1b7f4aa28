# Verified models of Swift benchmark kernels and build utilities

The algorithms of the repository's benchmarks and build scripts, modelled in Dafny in the form they have there
(classes with in-place updates, array loops, recursive functions) and proved against independent definitions.
`dafny verify dfyconfig.toml` checks the whole project.

| file | what it is about | main result |
|---|---|---|
| `PriorityQueue.dfy`, `SpanningTrees.dfy`, `Prims.dfy` | Prim's algorithm over a binary heap with an index from graph nodes to heap slots | on every undirected graph the parents returned form a minimum spanning tree rooted at node 0 |
| `Walsh.dfy` | the fast Walsh-Hadamard transform in two buffers that swap roles | it computes the quadratic definition, and the inverse transform undoes it |
| `CowTree.dfy` | search trees whose values share nodes and are rebuilt on write | every run of a program leaves what it would leave if no two trees ever shared a node |
| `UnicodeTrie.dfy`, `TrieBytes.dfy` | the two-stage Unicode property tables, their compression and their serialization | compression changes no lookup and leaves no duplicate; serialized lookup tables are right exactly up to 256 blocks, and take one byte an entry exactly below 256 |
| `HashStandards.dfy`, `Hash.dfy`, `HashAnswers.dfy` | streaming MD5, SHA-1 and SHA-256 | the digest is the standard's, for any split of the message; MD5's padding is the standard's exactly below 2^29 bytes; the standards' answers for "abc", MD5's listing of operations and the roots behind SHA-256's constants |
| `Hanoi.dfy` | the Towers of Hanoi solver | its moves are legal and transfer the tower, and no legal sequence of moves is shorter |
| `StringMatch.dfy` | a regular expression matcher | it answers whether a substring is in the language of the pattern |
| `CsvParsing.dfy` | a CSV parser | printed rows come back exactly if none ends in an empty bare field; every call shortens the input |
| `RomanNumbers.dfy` | Roman numerals | the numeral is that of the decimal digits, and parsing gives back the number |
| `Rc4.dfy` | the RC4 stream cipher | the step is a bijection, the array stays a permutation, a second cipher undoes the first, and the rounds of the key schedule tell the key |
| `Luhn.dfy` | the lazy Luhn checksum | every single wrong digit is detected, and every swap of neighbours but that of 0 and 9 |
| `FloatBounds.dfy` | bounds for conversions from floating point to integers | a value converts exactly if it is strictly between them |
| `RunningStatistics.dfy` | Welford's running mean and variance | exact for any samples in any order; loading a log keeps exact statistics through any number of merges of up to three samples |
| `FixitEdits.dfy` | right-to-left application of source edits | the same as substituting all edits at once, whatever order they arrive in |

`Option.dfy`, `Powers.dfy` and `Sequences.dfy` hold optionals, powers of two and reversed sequences for the others.

## Where the code differs from its documentation or fails

- benchmark/single-source/Hash.swift:212 means `(messageLength >> 29) * 8`, because `>>` binds tighter than `*` in
  Swift; the comment above it says `initial_len >> 29`. `StreamingHash.PaddingIsStandard` says exactly when it matters, and
  `StreamingHash.Md5PaddingDiffers` names the shortest messages for which it does.
- utils/GYBUnicodeDataUtils.py:415 does not shift the high byte of a two-byte entry down.
  `TrieSerialization.EntryLoads` says which entries survive, `TrieSerialization.LookupTablesLoadUpTo256` up to
  which size of the tables all of them do, and `TrieSerialization.GenerateMarkedTrie` generates a trie that is lost.
- benchmark/single-source/CSVParsing.swift:13 defines the carriage return as `"\n"`. The error at line 101 cannot be
  reached, as `CsvParsing.ParseLine` asserts; an empty bare field at the end of a row is lost, as
  `CsvParsing.WholeRowBack` and `CsvParsing.RowsBack` say. So the row breaks of section 2 of RFC 4180, a carriage return
  and a newline, leave the return in the last field, or in one more field after a quoted one: no such row comes back as
  it was (`CsvParsing.CrLfRowsBack`, `CsvParsing.ReturnNeverTexts`, `CsvParsing.ReturnIsAField`).
- benchmark/single-source/Walsh.swift:25 lets 0 pass as a power of two (`WalshHadamard.PassesExactly`), and the recursion
  of `WalshImpl` never arrives at its base case from 0 (`WalshHadamard.RecursionEndsExactly`).
- benchmark/scripts/compare_perf_tests.py:74 makes the count a float, with which line 98 cannot slice: merging a result
  that was itself merged, and has at most three samples, raises (`RunningStatistics.PerformanceTestResult.Merge`, and
  `RunningStatistics.MergedResultRaises` for three results of one sample each).
- benchmark/scripts/compare_perf_tests.py:97 calls merging exact, but mean and standard deviation are read from the log
  as integers. They are exact after any merges only if the first row's were (`RunningStatistics.LoadResults`), which for
  up to three samples its own fields tell (`RunningStatistics.ExactIfFieldsAgree`); those of a row for samples of 1 and 2
  are not (`RunningStatistics.RoundedRowIsInexact`).
- benchmark/single-source/RomanNumbers.swift:50 declares `position` anew in every round, so the search always starts at
  the beginning of the table. The parser is no check of good form: `RomanNumbers.FailsOnOtherLetters`.
- benchmark/single-source/RC4.swift:32-45 leaves `I` and `J` as they are, so only a new cipher starts from the key alone.

## Model

| member | source | states |
|---|---|---|
| `IndexedHeap.PriorityQueue.Insert` | benchmark/single-source/Prims.swift:45-50 | inserting an edge to a node with no queued edge adds exactly that entry; heap order holds and the map is again the exact inverse of the heap positions |
| `IndexedHeap.PriorityQueue.InsertOrUpdate` | benchmark/single-source/Prims.swift:54-68 | of the queued edge to the node and the new one the cheaper stays (the queued one on a tie), nothing else changes, order and inverse map are kept |
| `IndexedHeap.PriorityQueue.BubbleUp` | benchmark/single-source/Prims.swift:72-84 | an entry that may be too cheap for its parent is the only disorder: afterwards there is none, with the same entries |
| `IndexedHeap.PriorityQueue.Pop` | benchmark/single-source/Prims.swift:87-96 | removes exactly one entry, of minimum cost among all; the rest stay as a multiset; nil exactly for an empty queue |
| `IndexedHeap.PriorityQueue.BubbleDown` | benchmark/single-source/Prims.swift:101-122 | an entry that may be too dear for its children is the only disorder: afterwards there is none, with the same entries |
| `IndexedHeap.PriorityQueue.Swap` | benchmark/single-source/Prims.swift:126-134 | exchanging two slots together with their map entries keeps the map the inverse of the positions, also when both slots are one |
| `IndexedHeap.RootIsMinimum` | benchmark/single-source/Prims.swift:86-96 | local heap order makes the root a minimum of the whole heap |
| `IndexedHeap.EntriesAreUnique` | benchmark/single-source/Prims.swift:18-22 | there is never more than one entry for a node |
| `IndexedHeap.StepUp` | benchmark/single-source/Prims.swift:75-83 | one exchange with the parent moves the disorder one level up and creates no other |
| `IndexedHeap.StepDown` | benchmark/single-source/Prims.swift:104-121 | one exchange with the cheapest child moves the disorder down to that child's slot and creates no other |
| `IndexedHeap.DropLast` | benchmark/single-source/Prims.swift:91-94 | after the root's entry is exchanged to the end and dropped, the map is the inverse of what is left, and only the new root may be out of order |
| `SpanningTrees.EdgeBackIntoCut` | benchmark/single-source/Prims.swift:198-217 | from any connected region outside a cut, a connecting edge set leads back into the cut, from a larger connected region |
| `SpanningTrees.ConnectedExchange` | benchmark/single-source/Prims.swift:198-217 | an edge set stays connecting when an edge is replaced by another across the same two connected regions |
| `SpanningTrees.LightEdgeExchange` | benchmark/single-source/Prims.swift:200-205 | the cut property: any spanning tree with the edges chosen so far can be changed, at no cost, into one that also has the cheapest edge out of the cut |
| `PrimsAlgorithm.OfferNeighbours` | benchmark/single-source/Prims.swift:210-216 | after the scan every graph edge out of the tree has an offer at most its weight in the queue, and every queued edge is such an edge at its own weight |
| `PrimsAlgorithm.PoppedEdgeIsLight` | benchmark/single-source/Prims.swift:200-205 | the popped edge is a cheapest of all graph edges that leave the tree |
| `PrimsAlgorithm.ExtendableStep` | benchmark/single-source/Prims.swift:200-205 | recording it, the tree remains part of some spanning tree as cheap as any |
| `PrimsAlgorithm.PopStep` | benchmark/single-source/Prims.swift:200-205 | every pop adds a node that was not in the tree, so no node is popped twice and the loop ends |
| `PrimsAlgorithm.GrownTreeIsMinimum` | benchmark/single-source/Prims.swift:200-218 | a grown tree that no edge leaves is a spanning tree of total cost at most that of any other |
| `PrimsAlgorithm.ConnectedGraphIsCovered` | benchmark/single-source/Prims.swift:200-218 | in a connected undirected graph the tree reaches every node |
| `PrimsAlgorithm.Prims` | benchmark/single-source/Prims.swift:191-219 | for every graph with a node 0: the parents lead to the root along graph edges, one edge for each node reached, and exactly the reachable part is covered; if the graph is undirected with symmetric costs the tree is a minimum spanning tree of that part, and of all nodes if it is connected |
| `WalshHadamard.Log2` | benchmark/single-source/Walsh.swift:25 | a positive number that passes the bit test is a power of two |
| `WalshHadamard.PowersOfTwoPass` | benchmark/single-source/Walsh.swift:25 | every power of two passes the bit test |
| `WalshHadamard.PassesExactly` | benchmark/single-source/Walsh.swift:25 | what passes is zero and the powers of two, and nothing else |
| `WalshHadamard.RecursionEndsExactly` | benchmark/single-source/Walsh.swift:48-58 | halving arrives at the base case if and only if the size is positive |
| `WalshHadamard.RowHalves` | benchmark/single-source/Walsh.swift:51-58 | the signs (-1)^popcount(j & k) repeat in the second half of row k and flip in that of row k + h |
| `WalshHadamard.WalshHalves` | benchmark/single-source/Walsh.swift:51-58 | the transform by the quadratic definition is the transform of the sums of the halves followed by that of their differences |
| `WalshHadamard.Butterfly` | benchmark/single-source/Walsh.swift:52-55 | the loop leaves the sums and the differences of the two halves of the range in the other buffer, and nothing else changes there |
| `WalshHadamard.WalshImpl` | benchmark/single-source/Walsh.swift:48-59 | the array returned, which of the two it is depending on the depth, holds the transform of the range, and no buffer changes outside the range |
| `WalshHadamard.WalshTransform` | benchmark/single-source/Walsh.swift:28-35 | for every power-of-two length, out[k] is the sum over all j of (-1)^popcount(j & k) * in[j] |
| `WalshHadamard.WalshPlus` | benchmark/single-source/Walsh.swift:28-35 | the transform of a sum or difference is the sum or difference of the transforms |
| `WalshHadamard.WalshScaled` | benchmark/single-source/Walsh.swift:37-46 | scaling before or after the transform is the same |
| `WalshHadamard.WalshTwice` | benchmark/single-source/Walsh.swift:43-46 | transforming twice multiplies by the length |
| `WalshHadamard.InverseWalshTransform` | benchmark/single-source/Walsh.swift:43-46 | leaves in the array the transform scaled by one over the length |
| `WalshHadamard.InverseIsInverse` | benchmark/single-source/Walsh.swift:61-74 | the inverse transform undoes the transform, and the transform the inverse transform, exactly |
| `CowTree.OrderedIsSorted` | benchmark/single-source/COWTree.swift:91-102 | a tree with smaller values left and no smaller ones right reads in sorted order |
| `CowTree.InsertedValues` | benchmark/single-source/COWTree.swift:91-102 | an insert adds exactly one occurrence of the value |
| `CowTree.InsertedOrdered` | benchmark/single-source/COWTree.swift:91-102 | an insert keeps left < node <= right throughout the tree, with duplicates too |
| `CowTree.InsertAt` | benchmark/single-source/COWTree.swift:91-102 | the recursive insert keeps the node it is given and all its nodes, adds one new node, and changes the tree's shape as specified |
| `CowTree.FoundExactly` | benchmark/single-source/COWTree.swift:108-118 | in an ordered tree the one path that `contains` follows finds a value if and only if the tree holds it |
| `CowTree.ContainsAt` | benchmark/single-source/COWTree.swift:108-118 | the recursive search answers as that path does |
| `CowTree.TreeIterator.constructor` | benchmark/single-source/COWTree.swift:124-127 | a new iterator has all values of the tree before it, in order |
| `CowTree.TreeIterator.Next` | benchmark/single-source/COWTree.swift:127-144 | gives the first of the remaining values in order and keeps the rest; nil exactly when none is left; the stack loop ends |
| `CowTree.BuiltStep` | benchmark/single-source/COWTree.swift:72-77 | inserting the next value in sorted order puts it last, so a rebuild has read and built the same values at every step |
| `CowTree.Rebuild` | benchmark/single-source/COWTree.swift:72-77 | a tree made from another tree's sequence has the same values in the same order and only new nodes |
| `CowTree.InsertApart` | benchmark/single-source/COWTree.swift:86-102 | writing to a tree with no node in common with the others leaves their nodes and values as they are |
| `CowTree.Store.EnsureUnique` | benchmark/single-source/COWTree.swift:79-84 | the tree is empty or the only one with its root afterwards, every tree has the values it had, and two trees still share their root or no node |
| `CowTree.Store.Insert` | benchmark/single-source/COWTree.swift:86-89 | the tree gains exactly the value, and stays sorted; no other tree changes; two trees share their root or no node |
| `CowTree.Store.Contains` | benchmark/single-source/COWTree.swift:104-106 | true exactly for the values in the tree |
| `CowTree.Store.Copy` | benchmark/single-source/COWTree.swift:63-67 | a copy of a tree value shares the root and has the same values |
| `CowTree.Store.Assign` | benchmark/single-source/COWTree.swift:23-25 | assigning one tree to another replaces the values of that one only |
| `CowTree.Step` | benchmark/single-source/COWTree.swift:20-26 | each operation on shared nodes does what the same operation does on independent multisets |
| `CowTree.Run` | benchmark/single-source/COWTree.swift:20-26 | every program of creations, copies, assignments and inserts leaves in each tree the values it would leave without any sharing |
| `UnicodeTrie.UnicodeTrieGenerator.constructor` | utils/GYBUnicodeDataUtils.py:245-294 | for any bit parameters that fit, all tables have the sizes their indexes need, no block is shared, and every code point is unset |
| `UnicodeTrie.UnicodeTrieGenerator.BmpIndexInRange` | utils/GYBUnicodeDataUtils.py:224-228 | the first-level index of a BMP code point is inside its table, for any bit parameters |
| `UnicodeTrie.UnicodeTrieGenerator.SuppIndexInRange` | utils/GYBUnicodeDataUtils.py:230-239 | the first-level index of every code point up to 0x10ffff is inside the shortened supplementary table |
| `UnicodeTrie.UnicodeTrieGenerator.IndexesDetermineCodePoint` | utils/GYBUnicodeDataUtils.py:224-239 | the two or three indexes split a code point without loss |
| `UnicodeTrie.UnicodeTrieGenerator.BmpIndexesInBlock` | utils/GYBUnicodeDataUtils.py:224-228 | code point k of BMP block b has first-level index b and offset k |
| `UnicodeTrie.UnicodeTrieGenerator.SuppIndexesInBlock` | utils/GYBUnicodeDataUtils.py:230-239 | first-level index, second-level index and offset are the digits of a code point, from the highest to the lowest |
| `UnicodeTrie.UnicodeTrieGenerator.NextInBlock` | utils/GYBUnicodeDataUtils.py:224-239 | consecutive code points of one data block share the other indexes and have consecutive offsets |
| `UnicodeTrie.UnicodeTrieGenerator.DifferentCells` | utils/GYBUnicodeDataUtils.py:265-294 | as long as no block is shared, different code points have different cells |
| `UnicodeTrie.UnicodeTrieGenerator.SetValue` | utils/GYBUnicodeDataUtils.py:305-317 | the code point has the new value, before compression no other code point changes, and no third value gets into the tables |
| `UnicodeTrie.UnicodeTrieGenerator.Splat` | utils/GYBUnicodeDataUtils.py:296-303 | every code point has the value |
| `UnicodeTrie.UnicodeTrieGenerator.FillFromUnicodeProperty` | utils/GYBUnicodeDataUtils.py:333-336 | every code point has the value of its property, whatever the default; the tables store the property values and the default, and nothing else |
| `UnicodeTrie.UnicodeTrieGenerator.Verify` | utils/GYBUnicodeDataUtils.py:338-342 | passes exactly if every code point has the value of its property |
| `UnicodeTrie.PopKeepsLookups` | utils/GYBUnicodeDataUtils.py:349-361 | removing a duplicate block and remapping the indexes changes no lookup |
| `UnicodeTrie.PopKeepsFirstOccurrences` | utils/GYBUnicodeDataUtils.py:363-376 | it changes neither which different blocks there are nor the order in which they first occur |
| `UnicodeTrie.DistinctIsFirstOccurrences` | utils/GYBUnicodeDataUtils.py:363-376 | blocks without a duplicate are all first occurrences |
| `UnicodeTrie.UnicodeTrieGenerator.DeduplicateBmpData` | utils/GYBUnicodeDataUtils.py:366-376 | the nested loops end with the first of each group of equal blocks, in order, and with every lookup as before |
| `UnicodeTrie.UnicodeTrieGenerator.DeduplicateSuppData` | utils/GYBUnicodeDataUtils.py:381-393 | the same for supplementary blocks, through all second-level tables |
| `UnicodeTrie.UnicodeTrieGenerator.DeduplicateSuppLookup2` | utils/GYBUnicodeDataUtils.py:398-407 | the same for the second-level tables themselves |
| `UnicodeTrie.UnicodeTrieGenerator.Freeze` | utils/GYBUnicodeDataUtils.py:344-407 | every code point keeps its value, all indexes stay in range, data blocks and second-level tables are pairwise different afterwards, and the tables store the same values |
| `UnicodeTrie.UnicodeTrieGenerator.FrozenNamed` | utils/GYBUnicodeDataUtils.py:363-407 | compression leaves every block and every second-level table in use |
| `UnicodeTrie.UnicodeTrieGenerator.FrozenTablesDiffer` | utils/GYBUnicodeDataUtils.py:378-407 | bottom-up order loses nothing: two second-level tables of a frozen trie answer differently somewhere, not just by other block numbers |
| `TrieSerialization.EntryLoads` | utils/GYBUnicodeDataUtils.py:409-422 | a serialized table entry is read back as it was if and only if it is below 256 |
| `TrieSerialization.Entry256IsLost` | utils/GYBUnicodeDataUtils.py:413-415 | the entry 256 is read back as 65536 |
| `TrieSerialization.LookupTablesLoadUpTo256` | utils/GYBUnicodeDataUtils.py:424-466 | if all blocks are in use, as after compression, all entries of the lookup tables are read back as they were if and only if there are at most 256 blocks of each kind |
| `TrieSerialization.Serialize` | utils/GYBUnicodeDataUtils.py:424-475 | fails exactly if an entry does not fit its width; otherwise the five tables follow one another without a gap, each where its offset says, and a lookup table's entries take one byte if and only if there are fewer than 256 blocks to name |
| `TrieSerialization.TableSizes` | utils/GYBUnicodeDataUtils.py:425-474 | every offset and the number of bytes, for every trie, from the numbers of its blocks and its index bits; with fewer than 256 blocks of each kind there are as many bytes as entries in the five tables |
| `TrieSerialization.GenerateConstantTrie` | validation-test/stdlib/UnicodeTrieGenerator.gyb:57-69 | the generator's own test: the default parameters and one value for all code points leave one block of each kind and 1041 bytes, with tables of 256, 256, 17, 256 and 256 bytes, and every lookup gives the value's number |
| `TrieSerialization.SerializableUpTo65536` | utils/GYBUnicodeDataUtils.py:409-458 | with at most 65536 blocks of each kind no assertion fails if and only if the numeric value of everything stored is in 0..255 |
| `TrieSerialization.SerializableExactly` | utils/GYBUnicodeDataUtils.py:409-458 | if all blocks are in use, as after compression, none fails if and only if there are at most 65536 blocks of each kind and all numeric values are in 0..255 |
| `TrieSerialization.LookupIsGetValue` | utils/GYBUnicodeDataUtils.py:424-475 | with at most 256 blocks of each kind, the lookup in the bytes gives the numeric value of every code point |
| `TrieSerialization.TestTrieGeneration` | validation-test/stdlib/UnicodeTrieGenerator.gyb:9-18 | for every property and all bit parameters both verifications pass; serialization succeeds if and only if there are at most 65536 blocks of each kind left and the default and every property value are in 0..255; with at most 256 the bytes answer as the property, for every code point |
| `TrieSerialization.MarkedTrieIsLost` | utils/GYBUnicodeDataUtils.py:409-422 | a trie with nine first-level bits that answers with certain marks has 512 blocks, compressed or not, and its first lookup table is not read back right |
| `TrieSerialization.GenerateMarkedTrie` | validation-test/stdlib/UnicodeTrieGenerator.gyb:9-18 | the whole sequence succeeds on those marks and leaves such a table |
| `StreamingHash.RotationsAreStandard` | benchmark/single-source/Hash.swift:115-129 | the rotations by way of 64-bit shifts and truncation are those of 32-bit words |
| `StreamingHash.Md5LoopFIsStandard` | benchmark/single-source/Hash.swift:245-257 | the functions of the four rounds, as the loop writes them, are F, G, H and I of RFC 1321 section 3.4 |
| `StreamingHash.Sha1LoopFIsStandard` | benchmark/single-source/Hash.swift:391-403 | the functions of the loop are Ch, Parity and Maj of FIPS 180-4 section 4.1.1 |
| `StreamingHash.Md5Block` | benchmark/single-source/Hash.swift:224-271 | one block is processed as RFC 1321 section 3.4 says |
| `StreamingHash.Sha1Block` | benchmark/single-source/Hash.swift:359-418 | one block is processed as FIPS 180-4 section 6.1.2 says |
| `StreamingHash.Sha256Block` | benchmark/single-source/Hash.swift:497-555 | one block is processed as FIPS 180-4 section 6.2.2 says |
| `StreamingHash.LoadWords` | benchmark/single-source/Hash.swift:503-509 | the shifting loop leaves the sixteen big-endian words of the block |
| `StreamingHash.PaddingIsStandard` | benchmark/single-source/Hash.swift:187-214 | below 2^60 bytes the padded message is that of the standard if and only if the algorithm is not MD5 or the message is shorter than 2^29 bytes |
| `StreamingHash.Md5PaddingDiffers` | benchmark/single-source/Hash.swift:211-212 | 2^29 zero bytes are padded otherwise than RFC 1321 says |
| `StreamingHash.Hash.Update` | benchmark/single-source/Hash.swift:43-50 | appends the bytes to the stream; the state accounts for all whole blocks and the buffer holds the rest, so the split into calls does not matter |
| `StreamingHash.Hash.FillBlock` | benchmark/single-source/Hash.swift:333-356 | pads the stream across a block boundary or not, and leaves one full block |
| `StreamingHash.Hash.PaddedLength` | benchmark/single-source/Hash.swift:193-196 | the search ends at the next length that is 56 modulo 64 |
| `StreamingHash.Hash.AppendLength` | benchmark/single-source/Hash.swift:349-355 | the eight length bytes are appended in the algorithm's byte order and fill the block |
| `StreamingHash.Hash.HashBlock` | benchmark/single-source/Hash.swift:69-71 | the state becomes that of the stream with the block that was buffered |
| `StreamingHash.Hash.Digest` | benchmark/single-source/Hash.swift:53-58 | the text is that of the block function folded over the whole padded stream, and the standard's digest of the whole message in the range of `PaddingIsStandard` |
| `HashAnswers.DigestTextOfAbc` | benchmark/single-source/Hash.swift:53-67 | the standards' answers: the digests of "abc" are those of appendix A.5 of RFC 1321 and of the examples for FIPS 180-4, for all three algorithms |
| `HashAnswers.DigestOfAbc` | benchmark/single-source/Hash.swift:43-67 | a new hash of each kind, updated with "abc", gives that text |
| `HashAnswers.Md5OfAbc` | benchmark/single-source/Hash.swift:226-271 | the MD5 digest of "abc" in hexadecimal, through the registers after each four operations |
| `HashAnswers.Sha1OfAbc` | benchmark/single-source/Hash.swift:359-419 | the SHA-1 digest of "abc", through the schedule and the registers after each four steps |
| `HashAnswers.Sha256OfAbc` | benchmark/single-source/Hash.swift:497-556 | the SHA-256 digest of "abc", through the schedule and the registers after each two steps |
| `HashAnswers.Md5Round1IsListed` | benchmark/single-source/Hash.swift:245-265 | the steps of the first round are the sixteen operations that section 3.4 of RFC 1321 lists, with its words, amounts and constants, on every block |
| `HashAnswers.Md5Round2IsListed` | benchmark/single-source/Hash.swift:248-265 | the same for the second round |
| `HashAnswers.Md5Round3IsListed` | benchmark/single-source/Hash.swift:251-265 | the same for the third round |
| `HashAnswers.Md5Round4IsListed` | benchmark/single-source/Hash.swift:254-265 | the same for the fourth round |
| `HashAnswers.Sha256Constants` | benchmark/single-source/Hash.swift:441-449 | the constant of step t is the first 32 bits of the fraction of the cube root of prime number t, as an inequality between whole numbers |
| `HashAnswers.Sha256InitialState1` | benchmark/single-source/Hash.swift:458-461 | the first four words of the initial state are the first 32 bits of the fractions of square roots of primes |
| `HashAnswers.Sha256InitialState2` | benchmark/single-source/Hash.swift:462-465 | and so are the last four |
| `HashAnswers.LengthInBits` | benchmark/single-source/Hash.swift:487-493 | the eight bytes at the end of the padding spell, in the algorithm's byte order, eight times the length of the message |
| `StreamingHash.ToHex` | benchmark/single-source/Hash.swift:91-100 | eight digits, two for each byte from the most significant one |
| `StreamingHash.EightDigits` | benchmark/single-source/Hash.swift:91-100 | nibbles taken off at the low end, written in front, spell the bytes in order |
| `StreamingHash.ReversedText` | benchmark/single-source/Hash.swift:273-288 | writing a word with its bytes reversed is the least-significant-first text MD5 demands |
| `StreamingHash.HashState` | benchmark/single-source/Hash.swift:282-288 | the texts of all state words, each in the algorithm's byte order |
| `TowersOfHanoiPuzzle.TowersOfHanoi.Solve` | benchmark/single-source/Hanoi.swift:36-44 | appends the recursive solution to the moves recorded before, which stay |
| `TowersOfHanoiPuzzle.SolutionTransfers` | benchmark/single-source/Hanoi.swift:36-44 | the solution is 2^n - 1 legal moves that take the tower to the end peg and leave everything else, also with larger disks beneath on any peg |
| `TowersOfHanoiPuzzle.SmallerOnThird` | benchmark/single-source/Hanoi.swift:36-44 | in any legal play, when disk n moves, all smaller disks are on the third peg |
| `TowersOfHanoiPuzzle.NoShorterSolution` | benchmark/single-source/Hanoi.swift:36-44 | every legal sequence of moves on three pegs that transfers disks 1 to n has at least 2^n - 1 moves |
| `TowersOfHanoiPuzzle.SolutionIsShortest` | benchmark/single-source/Hanoi.swift:36-44 | no legal sequence with the same outcome is shorter than the solver's |
| `TowersOfHanoiPuzzle.PuzzleSolved` | benchmark/single-source/Hanoi.swift:36-44 | from n disks on one peg and two empty pegs the solution ends with the disks on the third and the others empty |
| `TowersOfHanoiPuzzle.PuzzleNotShorter` | benchmark/single-source/Hanoi.swift:36-44 | every legal play from there with that end has at least 2^n - 1 moves |
| `StringMatch.HereMany` | benchmark/single-source/StringMatch.swift:74-85 | a repeated character followed by a pattern occurs at the beginning exactly if some run of fitting characters is followed by the pattern |
| `StringMatch.HereOne` | benchmark/single-source/StringMatch.swift:66-70 | a literal or dot followed by a pattern occurs exactly if the first character fits and the rest has the pattern |
| `StringMatch.MatchHere` | benchmark/single-source/StringMatch.swift:53-71 | true exactly if some prefix of the text is in the language of the pattern, the whole text if the pattern ends in `$` |
| `StringMatch.MatchStar` | benchmark/single-source/StringMatch.swift:74-85 | true exactly if the pattern follows some run of the repeated character |
| `StringMatch.Match` | benchmark/single-source/StringMatch.swift:34-50 | true exactly if some substring, anchored by a leading `^` or a final `$`, is in the language of the pattern |
| `StringMatch.StarMatchesRuns` | benchmark/single-source/StringMatch.swift:58-84 | anchored at both ends, a character and `*` match the texts that are runs of that character, and `.` and `*` all texts |
| `StringMatch.MatchRuns` | benchmark/single-source/StringMatch.swift:34-50 | the matcher's answer for such a pattern |
| `StringMatch.CharacterOccurs` | benchmark/single-source/StringMatch.swift:66-68 | a single character occurs where it stands in the text, and `.` at every place before the end |
| `StringMatch.DotAndEnd` | benchmark/single-source/StringMatch.swift:62-68 | `.` matches the texts that are not empty; `$` matches every text, at its end only |
| `CsvParsing.ParseQuotedField` | benchmark/single-source/CSVParsing.swift:16-46 | reads up to the closing quote as the grammar says, remainder and error included |
| `CsvParsing.ParseField` | benchmark/single-source/CSVParsing.swift:49-77 | reads a quoted or a bare field, or none at the end of a row |
| `CsvParsing.ParseLine` | benchmark/single-source/CSVParsing.swift:90-110 | reads the fields of one row and the newlines after it; true exactly if there is more input and a field was read |
| `CsvParsing.ParseAll` | benchmark/single-source/CSVParsing.swift:134-147 | the driver's loop ends on every input and takes one line at a time |
| `CsvParsing.Line` | benchmark/single-source/CSVParsing.swift:90-110 | on any non-empty input a call strictly shortens the remainder, also when it throws |
| `CsvParsing.QuotedBack` | benchmark/single-source/CSVParsing.swift:16-46 | any text, quoted with its quotes doubled, is parsed back |
| `CsvParsing.WholeRowBack` | benchmark/single-source/CSVParsing.swift:90-110 | parsing a printed row gives all its fields if and only if it does not end in an empty bare field |
| `CsvParsing.LineBack` | benchmark/single-source/CSVParsing.swift:90-110 | a printed row is parsed back, and the remainder is the next row |
| `CsvParsing.CommaLine` | benchmark/single-source/CSVParsing.swift:63-77 | two texts without separators or quotes, written with a comma between them and a newline after them, are the two fields of the line |
| `CsvParsing.QuotedLine` | benchmark/single-source/CSVParsing.swift:16-46 | a text without quotes, commas and newlines included, is one field when it stands between quotes |
| `CsvParsing.DoubledQuoteLine` | benchmark/single-source/CSVParsing.swift:30-32 | two quotes between quotes are one quote of the field |
| `CsvParsing.FieldsOfRows` | benchmark/single-source/CSVParsing.swift:140-146 | the fields of all lines together are those of all rows together, without the empty bare fields at row ends, blank rows included |
| `CsvParsing.RowsBack` | benchmark/single-source/CSVParsing.swift:140-146 | any list of printed rows, with quoted and bare fields in any mixture, comes back row by row without an error if and only if no row ends in an empty bare field |
| `CsvParsing.CrLfRowsBack` | benchmark/single-source/CSVParsing.swift:12-14 | any rows printed with a carriage return and a newline after each come back line by line without an error, with the return at the end of a bare last field and as a further field after a quoted one; what follows them is parsed as if it stood alone |
| `CsvParsing.ReturnNeverTexts` | benchmark/single-source/CSVParsing.swift:12-14 | so no row with such an end comes back as it was |
| `CsvParsing.ReturnIsAField` | benchmark/single-source/CSVParsing.swift:12-14 | the first line of two quoted one-field rows so parted has two fields, the second a carriage return |
| `RomanNumbers.RomanNumeral` | benchmark/single-source/RomanNumbers.swift:45-62 | greedy subtraction writes thousands and then the three decimal digits in their letters; the fatal error is not reached; a number that is not positive has the empty numeral |
| `RomanNumbers.GreedyStep` | benchmark/single-source/RomanNumbers.swift:48-58 | the greedy table entry's letters are the front of the numeral of the digits, and what is left is the numeral of the remaining number |
| `RomanNumbers.ParseRomanNumeral` | benchmark/single-source/RomanNumbers.swift:64-80 | the loops end, with the sum of the entries matched greedily from the front, or nil |
| `RomanNumbers.SameEntry` | benchmark/single-source/RomanNumbers.swift:70-77 | on the numeral of n the parser's first match is the very entry the printer took |
| `RomanNumbers.RoundTrip` | benchmark/single-source/RomanNumbers.swift:83-87 | parsing the numeral of n gives back n, for every n >= 0 |
| `RomanNumbers.NumeralsDiffer` | benchmark/single-source/RomanNumbers.swift:83-87 | no two numbers print alike |
| `RomanNumbers.FailsOnOtherLetters` | benchmark/single-source/RomanNumbers.swift:64-80 | parsing fails if and only if some letter is none of the seven |
| `Rc4Cipher.RC4.Initialize` | benchmark/single-source/RC4.swift:32-45 | for every non-empty key the array becomes that of the key schedule, a permutation; I and J stay. What the schedule takes from the key is stated by the rows on it below |
| `Rc4Cipher.RC4.Next` | benchmark/single-source/RC4.swift:55-60 | one step of the generator and its output byte; a permutation stays one |
| `Rc4Cipher.RC4.Encrypt` | benchmark/single-source/RC4.swift:63-68 | every byte is combined with the keystream from the state before, and the cipher goes on from the state after |
| `Rc4Cipher.ScheduledIsPermutation` | benchmark/single-source/RC4.swift:32-45 | whatever the key, each byte value is in the array exactly once |
| `Rc4Cipher.KeysDiffer` | benchmark/single-source/RC4.swift:37-44 | for keys of one length, at most 256, the rounds agree up to the first byte in which the keys differ and end with different j in the round that takes it, so the rounds tell the key |
| `Rc4Cipher.FirstRound` | benchmark/single-source/RC4.swift:37-44 | the first round exchanges place 0 with the place the first key byte names |
| `Rc4Cipher.KeyRepeats` | benchmark/single-source/RC4.swift:39 | a key written twice has the same schedule |
| `Rc4Cipher.RoundsOfKey` | benchmark/single-source/RC4.swift:37-44 | the key "Key" makes j 75, 177, 44 and 122 in the first four rounds |
| `Rc4Cipher.StandingStill` | benchmark/single-source/RC4.swift:37-44 | the 256-byte key 0, 0, 255, 254, ..., 2 exchanges nothing, and j is the number of the last round |
| `Rc4Cipher.KeystreamOfIdentity` | benchmark/single-source/RC4.swift:55-60 | from the identity the generator gives 2, 5 and 7 first |
| `Rc4Cipher.FirstThree` | benchmark/single-source/RC4.swift:32-60 | a new cipher with that key gives them |
| `Rc4Cipher.PermutationIsBijection` | benchmark/single-source/RC4.swift:32-45 | in such an array every byte value occurs, and no two places hold the same |
| `Rc4Cipher.StepIsBijection` | benchmark/single-source/RC4.swift:55-60 | every state has exactly one state before it, so a step forgets nothing |
| `Rc4Cipher.StepIsInjective` | benchmark/single-source/RC4.swift:55-60 | different states have different successors |
| `Rc4Cipher.FinneyOnlyFromFinney` | benchmark/single-source/RC4.swift:55-60 | a state with J = I + 1 and 1 at J is reached from such a state only, and leads to such a state only |
| `Rc4Cipher.EveryKeyedRun` | benchmark/single-source/RC4.swift:55-60 | a new cipher, keyed, is never in such a state and always has a permutation, after any number of steps |
| `Rc4Cipher.EncryptedTwice` | benchmark/single-source/RC4.swift:63-68 | encrypting again from the same state restores the data |
| `Rc4Cipher.EncryptedInParts` | benchmark/single-source/RC4.swift:63-68 | encrypting a message in two calls is encrypting it in one |
| `Rc4Cipher.EncryptThenDecrypt` | benchmark/single-source/RC4.swift:63-68 | a second new cipher with the same key decrypts what the first encrypted in place |
| `LuhnChecksum.MapSomeIterator.Next` | benchmark/single-source/LuhnAlgoLazy.swift:56-69 | gives the next value that is not nil, skipping as many nils as there are, and nil only at the end |
| `LuhnChecksum.MapSomeEagerly` | benchmark/single-source/LuhnAlgoLazy.swift:177-188 | the eager version gives the same values as the lazy one |
| `LuhnChecksum.SumDigits` | benchmark/single-source/LuhnAlgoLazy.swift:146-148 | drawing the digits one by one through the two transformations adds what each contributes by its place from the right |
| `LuhnChecksum.LazyChecksum` | benchmark/single-source/LuhnAlgoLazy.swift:221-229 | one pass over the reversed text accepts exactly if the sum of the digits' contributions, by their place from the right, is a multiple of 10 |
| `LuhnChecksum.DoubledDigit` | benchmark/single-source/LuhnAlgoLazy.swift:214-218 | every second digit from the right adds the digit sum of its double, the others themselves |
| `LuhnChecksum.DigitsAreNumbers` | benchmark/single-source/LuhnAlgoLazy.swift:137-144 | each of the characters 0 to 9 is its number, and every other character none |
| `LuhnChecksum.OneDigitText` | benchmark/single-source/LuhnAlgoLazy.swift:221-229 | a text of one digit is accepted if and only if it is 0 |
| `LuhnChecksum.LeadingZero` | benchmark/single-source/LuhnAlgoLazy.swift:221-229 | a 0 in front makes no difference |
| `LuhnChecksum.CardNumber` | benchmark/single-source/LuhnAlgoLazy.swift:231 | the benchmark's card number adds up to 90, so it is accepted |
| `LuhnChecksum.OthersIgnored` | benchmark/single-source/LuhnAlgoLazy.swift:137-144 | spaces and other characters that are not digits make no difference anywhere |
| `LuhnChecksum.OneDigitWrong` | benchmark/single-source/LuhnAlgoLazy.swift:221-229 | an accepted text with any one digit replaced by another is rejected |
| `LuhnChecksum.TwoDigitsSwapped` | benchmark/single-source/LuhnAlgoLazy.swift:221-229 | an accepted text with two neighbouring digits swapped is accepted if and only if they are equal or are 0 and 9 |
| `LuhnChecksum.OneCheckDigit` | benchmark/single-source/LuhnAlgoLazy.swift:221-229 | every text has exactly one final digit with which it is accepted |
| `FloatBounds.BetweenBoundsExactlyIfFits` | utils/SwiftFloatingPointTypes.py:14-23 | for every significand and integer width, a representable value is strictly between the bounds if and only if its truncation fits the integer type |
| `FloatBounds.LowerBoundIsNextBelow` | utils/SwiftFloatingPointTypes.py:22-23 | for integers wider than the significand the lower bound is the largest representable value below -2^(n - 1) |
| `FloatBounds.ConvertsExactlyIfBetween` | utils/SwiftFloatingPointTypes.py:39-47 | the same for the three types of the table, which always have bounds |
| `FloatBounds.KnownExactly` | utils/SwiftFloatingPointTypes.py:14-23 | there are bounds if and only if the type is one of the three and the width leaves room for the sign |
| `FloatBounds.BoundsInNumbers` | utils/SwiftFloatingPointTypes.py:14-47 | the bounds of the three types for 64-bit integers, and of the widest for 65 bits, written out |
| `RunningStatistics.PushIsExact` | benchmark/scripts/compare_perf_tests.py:67-77 | one step from the exact count, mean and squared deviations of some samples, none included, gives those of one sample more |
| `RunningStatistics.PushedIsExact` | benchmark/scripts/compare_perf_tests.py:67-77 | folding over any samples gives the exact statistics of all of them |
| `RunningStatistics.PushedIsExactOnlyFromExact` | benchmark/scripts/compare_perf_tests.py:67-77 | pushing onto the statistics of some samples gives those of all of them if and only if the former were exact: a rounded mean is never made good |
| `RunningStatistics.ExactInAnyOrder` | benchmark/scripts/compare_perf_tests.py:67-77 | the order of the samples does not matter |
| `RunningStatistics.PerformanceTestResult.constructor` | benchmark/scripts/compare_perf_tests.py:39-53 | a row's squared deviations are those of its standard deviation, and none below two samples |
| `RunningStatistics.RowFor` | benchmark/scripts/compare_perf_tests.py:39-53 | there is a row for any sorted samples, and it can be merged without an error and exactly if and only if they are at most three |
| `RunningStatistics.PerformanceTestResult.Merge` | benchmark/scripts/compare_perf_tests.py:79-99 | minimum and maximum of both, at most three values of the other result pushed, the median left alone; the count is a float exactly if it was or a value was pushed; raises exactly if the other result's count is a float of at most three, itself included |
| `RunningStatistics.MergedResultRaises` | benchmark/scripts/compare_perf_tests.py:74-98 | merging the result of two one-sample rows into a third raises |
| `RunningStatistics.ValuesAreSamples` | benchmark/scripts/compare_perf_tests.py:97-98 | minimum, maximum and median of at most three samples are the samples |
| `RunningStatistics.MergeIsExact` | benchmark/scripts/compare_perf_tests.py:79-99 | merging at most three samples, whatever mean and deviation are reported for them, gives the count and the extremes of all samples, again and again; mean and squared deviations are exact if and only if they were |
| `RunningStatistics.AddOrMerge` | benchmark/scripts/compare_perf_tests.py:172-177 | the first result of a name is kept, a later one merged into it |
| `RunningStatistics.ExactIfFieldsAgree` | benchmark/scripts/compare_perf_tests.py:42-51 | the mean and the squared deviations of a row of at most three samples are exact if and only if they agree with its minimum, maximum and median |
| `RunningStatistics.RoundedRowIsInexact` | benchmark/scripts/compare_perf_tests.py:45-49 | a row with mean 1 and standard deviation 1 is not exact for samples of 1 and 2 |
| `RunningStatistics.LoadResults` | benchmark/scripts/compare_perf_tests.py:166-178 | after loading any log the result of each name has the count and the extremes of all samples of that name, and the exact mean and squared deviations if and only if its first row had them, which up to three samples the fields of that row tell |
| `RunningStatistics.CountIsExactUpToThree` | benchmark/scripts/compare_perf_tests.py:97-99 | the merged count is right if and only if the other result has at most three samples |
| `FixitEdits.SortDescending` | utils/apply-fixit-edits.py:51 | none is lost; offsets do not increase, at one offset lengths do not increase, and at one offset and length each text begins the one before it or has the smaller character where they first differ |
| `FixitEdits.TextUpToExactly` | utils/apply-fixit-edits.py:51 | the recursive comparison of texts is the order by prefix and first differing character |
| `FixitEdits.CutInTwo` | utils/apply-fixit-edits.py:55-57 | Python's two slices at one index, negative or beyond the end, make up the whole text |
| `FixitEdits.ApplyEdits` | utils/apply-fixit-edits.py:51-57 | the edits are spliced in one after the other in the only descending order they have, with Python's slices |
| `FixitEdits.FrontAndBack` | utils/apply-fixit-edits.py:51-57 | "abcdef" with its first character replaced by "XY" and its fourth removed is "XYbcef" |
| `FixitEdits.AppliedIsSubstituted` | utils/apply-fixit-edits.py:54-57 | splicing from the right gives the text of one pass from the left with all edits substituted |
| `FixitEdits.DisjointIsApart` | utils/apply-fixit-edits.py:49-57 | edits of which any two have one end where the other starts or earlier follow one another in sorted order, several insertions at one place included |
| `FixitEdits.DisjointExactlyApart` | utils/apply-fixit-edits.py:49-57 | for edits in sorted order, not overlapping pairwise is the same as following one another within the text |
| `FixitEdits.SortedOneWay` | utils/apply-fixit-edits.py:51 | the sorted order depends only on which edits there are |
| `FixitEdits.DisjointSubstituted` | utils/apply-fixit-edits.py:54-57 | for edits that do not overlap the one-pass text is defined, and the splices give it |
| `FixitEdits.ApplyDisjointEdits` | utils/apply-fixit-edits.py:49-57 | whatever order the edits arrive in, the text is the one with all of them substituted at once |

## Left out

- `Double` is exact real arithmetic everywhere, and `Int` is unbounded, except for the wrap-around of `UInt8` and
  `UInt32`, which is modelled. Rounding, NaN and overflow traps are not part of this model.
- Text is a sequence of code units. Grapheme clusters, which Swift's `Character` and `starts(with:)` compare, are not
  modelled.
- The cost function of `Prims` and Unicode properties are total functions given as parameters.
- Inner loops and branches of some functions are methods of their own here, such as `OfferNeighbours`, `Butterfly`,
  `InsertLeft`, `Descend`, `SumDigits` and `AppendLength`.
- CowTree.Store: the values are integers rather than any comparable type, and reference counts are the number of live
  trees with a root. An iterator or a sequence view that is still alive holds nodes but is no tree; a later insert in
  place can change what it gives.
- UnicodeTrie.UnicodeTrieGenerator.SetValue: says nothing of other code points once the trie is frozen, as blocks are
  shared then.
- TrieSerialization.LookupIsGetValue: the reader in the standard library is not part of this model; the lookup follows
  the layout of the tables.
- TrieSerialization.GenerateConstantTrie: the generator's other two tests, of a property that does not compress, are left
  out; `TableSizes` gives their sizes from the numbers of blocks.
- `get_extended_grapheme_cluster_rules_matrix` is not modelled: a fixed table.
- StreamingHash.Hash: one class with the algorithm as a field stands for the base class and its three subclasses.
  `update(String)` adds the same bytes for ASCII text, and is left out. So is `hashStateFast`, which gives the same digits
  as bytes in `MD5` and is a fatal error in `SHA1` and `SHA256`, since neither overrides it.
- StreamingHash.Hash.Digest: for messages of 2^60 bytes or more it relates the digest to the program's own padding only,
  since the bit length no longer fits the program's integers.
- TowersOfHanoiPuzzle.TowersOfHanoi.Solve: requires n >= 1; the recursion does not end for other numbers.
- WalshHadamard.WalshTransform: requires a positive length; the recursion does not end on an empty array.
- CsvParsing.ParseLine: `processField` collects the fields; other callbacks are not modelled.
- RomanNumbers.ParseRomanNumeral: sums in unbounded integers; a narrow integer type would trap.
- Rc4Cipher.RC4.Encrypt: data bytes are bit-vectors, since they are only combined bit by bit, and the array's bytes are
  numbers. The cipher is an object where the original is a struct; copies of it are separate objects.
- LuhnChecksum.LazyChecksum: the lazy views are read through one iterator; `|>` and `•` are function application and
  composition and have no counterpart.
- FloatBounds.BetweenBoundsExactlyIfFits: exponents are not limited, so infinities and subnormal values are not
  distinguished.
- RunningStatistics.LoadResults: rows of more than three samples can only come first for their name, as
  `CountIsExactUpToThree` shows that merging them is wrong. The parsing of rows, and the standard deviation, which is a
  square root of the modelled value, are left out; an error of `merge` is a result.
- FixitEdits.ApplyEdits: one file's edits. Reading `.remap` files and JSON and writing files are not modelled, and edits
  that overlap get no promise beyond the splices themselves. The sort is some sort, not Python's.
- Benchmark drivers, sample data, command lines and reports: fixed inputs with no general claim.
