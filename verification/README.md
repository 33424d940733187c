# Verification of the multi-party private set intersection kernels

This project models the parts of the repository on which its results rest and proves properties of
them for all inputs, all numbers of parties and all runs:

- the lock-free multi-producer queue, every atomic operation a step of its own;
- the three secret-sharing protocols of `frontend/OtBinMain.cpp` (`tparty`, `party`, `aug_party`), for
  `party` with its channels and every interleaving of its threads;
- the three encodings of payloads under an oblivious PRF: garbled Bloom filter (both variants), hint table and
  padded polynomial, each as a round trip between the sender's and the receiver's code;
- the sharing of bins among threads and buffers;
- the transport queues of a socket with their strands and the close operation;
- AES and its equivalent inverse cipher over a proved field of 256 elements, with the S-box and the
  examples of FIPS 197 as known answers, the counter-mode generator on top of it, chunked hashing, and
  the packed bit vector.

Objects that the source updates in place are classes (`TParty.Client`, `PartyRing.Party`,
`AugParty.Party`, `GarbledBloom.Filter`, `TableHints.TableBased`, `Aes.AES`, `Aes.AESDec`, `Prng.PRNG`,
`Sha1.SHA1`, `BitVectors.BitVector`, `Transport.BtSocket`); their methods are proved against
specification functions, about which the lemmas speak. The queue, the two directions of a socket and the
exchange of `party` are state machines; runs are sequences of steps in any order. `dafny verify dfyconfig.toml` checks everything.

Conventions. A block is a sequence of sixteen bytes; `Prefix(b, k)` is what a `memcmp` or `memcpy` of
length k sees. The oblivious PRF is a value that both sides of a bin agree on, given as an argument.
Random draws are arguments: any payload, any sequence of draws. Loops of the source are loops here, with
one exception: the statement lists that `AES.cpp` unrolls over eight lanes and ten rounds are written
as loops over lanes and rounds.

## What the code does not meet

Where the code falls short of what it is for, the code is kept and the exact condition is proved.

- `aug_party` ties a zero share to the index of an element in its owner's list. With correct transfers the
  leader reports a common element for all draws if and only if it sits at the same index in every list
  (`AugParty.ReportedIffAligned`; `AugProtocol.SeededReportIffAligned` for the generators of the seed
  matrix). `tparty` and `party` do not have this restriction.
- The garbled Bloom filter inserts at the set of an element's hash positions, but the decoder adds up the
  list. It returns the payload if and only if the cells hit an even number of times XOR to zero on the
  mask (`GarbledBloom.RoundTripIff`), in particular when the positions are pairwise distinct. An element
  whose two hashes collide comes back as its OPRF value (`GarbledBloom.RepeatedPosition`).
- The encoder has no branch for an element whose cells are all taken; it would then write at index -1.
  When no value stored is zero, that happens to an element if and only if its positions are all positions
  of elements inserted before (`GarbledBloom.FindsEmptyIff`; `GarbledBloom.SamePositions` and, with one
  hash in a table of any size, `GarbledBloom.NoCellLeft` are inputs), and
  every other element is in the filter that is sent (`GarbledBloom.ElementIsSent`). With non-zero random
  blocks a stored value is zero if and only if it equals the sum of the element's other cells
  (`GarbledBloom.NothingZeroIff`).
- The double-hash pair takes its second hash from the hash value shifted right by 64. That shift works on
  each 64-bit lane on its own, so the second index is always 0 (`DoubleHash.SecondIndexIsZero`): every
  element sits in its first cell and in cell 0, and the decoder visits the first cell two times less often
  than there are hashes. For an even number of hashes, the default of 40 among them, the decoder returns
  its own OPRF value for every filter, so the payload comes back if and only if it agrees with that on the
  mask (`DoubleHash.EvenHashes`). For an odd number it comes back if and only if the first cell is cell 0
  or cell 0, which the first element fixes, is zero on the mask (`DoubleHash.OddHashes`). `operator>>` is
  defined for the Microsoft compiler only, and the second index refers to the temporary that it returns;
  the model takes the value of that temporary, and for any other value `GarbledBloom.DecodesIff` is the
  condition on the two position lists.
- The number of hint positions of a stash bin is computed from the size of the other bins
  (`libOPRF/Hashing/SimpleHash.cpp:235-236`). The search for hints never ends for a bin with more elements
  than masks (`TableHints.MasksRunOut`, `TableHints.TableBased.GetPos1`). It can end if and only if the bin
  has positions that separate its OPRF values (`TableHints.TableBased.GetPos1`, `TableHints.SomeDrawsLead`).
  A bin with one element goes through the general case too, so it needs an OPRF value with as many set bits
  as there are positions (`TableHints.SingleBinEnds`).
- The sender of the polynomial encoding always copies `mMaxBinSize` coefficients. It stays inside the
  coefficient vector if and only if the padded polynomial has full degree, that is, the leading coefficient
  of the random factor (or of the interpolation polynomial of a full bin) is not zero
  (`PolyOpprf.SendBin`, `PolyOpprf.FullDegreeIff`).
- `hammingWeight` counts whole bytes and equals the number of set bits if and only if the padding is clear.
  `resize` and a bitwise `append` leave the padding as the allocation has it, a bytewise `append` brings the
  source's along (`BitVectors.BitVector.Resize`, `BitVectors.BitVector.Append`).
- `BitVector::copy` of a vector into itself is undefined if and only if whole bytes are moved and the two
  ranges overlap (`BitVectors.BitVector.Copy`).
- A receive whose buffer has the wrong size stops the receive queue for good, so a later close is never
  signalled (`RecvQueue.RefusingRunRefuses`, `RecvQueue.RefusedForever`). At a standstill everything
  dispatched has completed if and only if nothing was queued while a close was waiting, there is a message
  for every receive, and each has the size of its buffer (`RecvQueue.CompletesIff`).
- An operation that is queued while a close waits in the queue is never started, and nothing after it. At
  a standstill everything dispatched has completed if and only if that never happened
  (`SendQueue.StandstillIff`, `RecvQueue.StandstillIff`). `SendQueue.StallingRunStalls` is a run that
  reaches such a state; since `BtChannel::close` does not look at `mStopped`, the operation may be a second
  close. The gate excludes it for every other caller (`SendQueue.GateSuffices`).
- A request to a moved-from generator never returns, unless it asks for nothing (`Prng.PRNG.Get`).
- A default-constructed generator returns 1024 zero bytes before the key stream of the zero seed begins
  (`Prng.PRNG.constructor`).
- `SHA1::operator=` leaves the index alone, so it copies the state if and only if the indices agree
  (`Sha1.SHA1.Assign`).

## Model

| member | source | states |
|---|---|---|
| MpscQueue.InitInv | cryptoTools/Common/mpsc_queue.h:40-46 | the state the constructor leaves satisfies the queue invariant |
| MpscQueue.StepInv | cryptoTools/Common/mpsc_queue.h:56-83 | every atomic step of any producer or the consumer keeps the invariant that ties exchange order, linked list, freed nodes and program counters together, and none touches a freed node |
| MpscQueue.RunInv | cryptoTools/Common/mpsc_queue.h:56-83 | after any interleaving the invariant holds and the history is the order of the exchanges on `_head` |
| MpscQueue.QueueIsFifo | cryptoTools/Common/mpsc_queue.h:56-83 | the values dequeued are a prefix of the enqueue arguments in exchange order, nothing lost or doubled, and the next step touches no freed node |
| MpscQueue.DequeueFalseIff | cryptoTools/Common/mpsc_queue.h:72-77 | dequeue returns false if and only if all exchanged values were taken or the producer of the next link has exchanged but not stored `next` |
| MpscQueue.DeletedNodeIsUnreachable | cryptoTools/Common/mpsc_queue.h:79-82 | the node deleted is neither head, tail, nor linked, and no producer holds it as its node or as `prev_head` |
| MpscQueue.ProducerIsEnabled | cryptoTools/Common/mpsc_queue.h:56-66 | in every state with the invariant a producer can go on: its next step is never disabled, whatever the others do, `_head == _tail` included |
| MpscQueue.ConsumerIsEnabled | cryptoTools/Common/mpsc_queue.h:68-83 | and so can the consumer |
| MpscQueue.Enqueue | cryptoTools/Common/mpsc_queue.h:56-66 | the four steps of a lone call append the value to the history and leave the queue without a call under way |
| MpscQueue.Dequeue | cryptoTools/Common/mpsc_queue.h:68-83 | without concurrent producers a call takes the oldest value, or fails on the empty queue |
| MpscQueue.EnqueueThenDequeue | cryptoTools/Common/mpsc_queue.h:56-83 | on the queue from which everything was taken, an enqueue and a dequeue return the value |
| MpscQueue.Destroy | cryptoTools/Common/mpsc_queue.h:48-54 | the drain takes all remaining values in order and frees every node |
| DualWindow.NeighboursRange | frontend/OtBinMain.cpp:1230-1237 | the parameter as it is when it is between 1 and the number of clients minus 1, otherwise the nearer end of that range; there is such a range from three parties on |
| DualWindow.WindowIsDistance | frontend/OtBinMain.cpp:272-287 | the window test, wrap-around included, is true exactly for ring distances from n-t to t |
| DualWindow.WindowIsSymmetric | frontend/OtBinMain.cpp:272-287 | a client is in another's window if and only if the other is in its own |
| DualWindow.AssignReceives | frontend/OtBinMain.cpp:1732-1747 | the first loop fills exactly the slots from t on whose previous client is outside the window |
| DualWindow.AssignSends | frontend/OtBinMain.cpp:1749-1780 | the second loop fills exactly the slots below t, two-way inside the window and one-way outside |
| DualWindow.AssignThreads | frontend/OtBinMain.cpp:1729-1785 | every thread slot is assigned exactly once, in the dual and in the plain mode |
| DualWindow.ReceiveRows | frontend/OtBinMain.cpp:1732-1772 | each receive row below t is filled by exactly one neighbour on exactly one thread, and no other row is |
| DualWindow.SendRows | frontend/OtBinMain.cpp:1749-1779 | each send row goes to exactly one neighbour |
| DualWindow.TransfersMatch | frontend/OtBinMain.cpp:1729-1785 | every directed share sent is received by exactly its addressee |
| DualWindow.SourcesMatch | frontend/OtBinMain.cpp:1729-1785 | every receive row has exactly one send row as its source: the two maps are inverse |
| DualWindow.ExchangeOrdersOppose | frontend/OtBinMain.cpp:1755-1771 | at the two ends of a two-way exchange the orders of sending and receiving are opposite |
| TParty.Client.DealShares | frontend/OtBinMain.cpp:1392-1411 | the share for the leader is the XOR of the shares for the neighbours, at every index |
| TParty.Client.AddReceived | frontend/OtBinMain.cpp:1850-1860 | the leader's share gains the XOR of all received shares and nothing else changes |
| TParty.Intersect | frontend/OtBinMain.cpp:1887-1908 | an index is reported if and only if the XOR of the received totals agrees with the zero block on the mask; the report is in increasing order |
| TParty.AnyOrder | frontend/OtBinMain.cpp:1729-1788 | in whatever order the threads complete, every receive row ends up with what its one source sent |
| TParty.TotalsAreErrors | frontend/OtBinMain.cpp:1392-1411 | conservation: the clients' totals XOR to the sum of (decoded minus sent) over all share transfers |
| TParty.LeaderSeesErrors | frontend/OtBinMain.cpp:1892-1900 | the leader's sum at an index is exactly the sum of the errors of the leader transfers and of all share transfers |
| TParty.IntersectRun | frontend/OtBinMain.cpp:1887-1908 | the leader's loop on what it received: an index is reported if and only if the errors of all transfers XOR to zero on the mask |
| TParty.OneWrongShare | frontend/OtBinMain.cpp:1850-1905 | when exactly one share transfer is wrong on the mask, the element is not reported |
| TParty.OneWrongLeaderTransfer | frontend/OtBinMain.cpp:1892-1905 | nor when exactly one transfer to the leader is wrong |
| TParty.CommonElementIsReported | frontend/OtBinMain.cpp:1850-1906 | an element whose transfers decode correctly on the mask is reported, for all n, t and orderings |
| TParty.ProtocolReportsCommonElement | frontend/OtBinMain.cpp:1392-1906 | end to end: dealing, transfers in any order, totals and the leader's test report every common element |
| PartyRing.Phase1Matches | frontend/OtBinMain.cpp:528-559 | in the two-direction phase a party sends to another exactly when the other receives from it, and of a two-way pair the lower one sends first and the other one receives first |
| PartyRing.Party.DealShares | frontend/OtBinMain.cpp:348-382 | the dealt shares of every party but 0 XOR to zero; party 0 keeps the sum of the others |
| PartyRing.Party.AddReceived | frontend/OtBinMain.cpp:602-650 | the row for the next party becomes the row handed on: own share, direct shares and, except at party 0, the value from the ring |
| PartyRing.Intersect | frontend/OtBinMain.cpp:685-694 | exactly the indices where the stored sum equals the arriving value on the mask are reported |
| PartyRing.RingUnrolls | frontend/OtBinMain.cpp:602-650 | the value a party hands on is the sum of the contributions and link errors of all parties before it |
| PartyRing.PartySharesCancel | frontend/OtBinMain.cpp:359-372 | all shares of a party other than 0 XOR to zero |
| PartyRing.PartyZeroSeesErrors | frontend/OtBinMain.cpp:602-650 | what reaches party 0 differs from its stored sum exactly by the sum of all transfer errors |
| PartyRing.ReportedIff | frontend/OtBinMain.cpp:685-694 | party 0's test passes if and only if the errors of all hops and direct transfers XOR to zero on the mask |
| PartyRing.OneWrongHop | frontend/OtBinMain.cpp:602-694 | when exactly one hop of the ring round is wrong on the mask, the element is not reported |
| PartyRing.OneWrongShare | frontend/OtBinMain.cpp:528-694 | nor when exactly one direct transfer is wrong |
| PartyRing.CommonElementIsReported | frontend/OtBinMain.cpp:685-694 | every element whose transfers decode correctly is reported, for all n of at least 3 |
| PartyProtocol.StepInv | frontend/OtBinMain.cpp:524-650 | every step of every thread keeps: a channel holds its direct message before its ring message, tables are the dealt, handed-on and decoded rows, the ring round follows the join |
| PartyProtocol.RunsEnd | frontend/OtBinMain.cpp:524-650 | no run has more than two events for each message |
| PartyProtocol.NobodyWaits | frontend/OtBinMain.cpp:524-650 | no interleaving deadlocks: a run comes to a standstill only after every message has been sent and received |
| PartyProtocol.RunCompletes | frontend/OtBinMain.cpp:524-650 | every run can be continued until each message has been sent and received |
| PartyProtocol.ProtocolReportsCommonElement | frontend/OtBinMain.cpp:359-694 | end to end: dealt shares, any interleaving, and the two messages from the last party to party 0: the two values that party 0 compares agree on the mask for a common element |
| AugParty.MakeSeeds | frontend/OtBinMain.cpp:3465-3485 | the seed matrix is symmetric and every unordered pair has its own draw |
| AugParty.SeedPlace | frontend/OtBinMain.cpp:3465-3485 | which draw each pair gets, in closed form; the matrix of n parties takes n(n+1)/2 draws |
| AugParty.SeedsAreSeparate | frontend/OtBinMain.cpp:3467-3477 | two different pairs never use the same draw |
| AugParty.Party.MakeShares | frontend/OtBinMain.cpp:2232-2241 | the share at index i is the XOR of the i-th next outputs of the pairwise generators, which advance by one each |
| AugParty.LockstepIsKept | frontend/OtBinMain.cpp:2232-2241 | paired generators at the two parties stay at the same position over a whole trial |
| AugParty.SharesOfZero | frontend/OtBinMain.cpp:2232-2241 | the shares of all parties XOR to zero at every index |
| AugParty.Intersect | frontend/OtBinMain.cpp:2410-2426 | exactly the indices where own and received shares cancel on the mask are reported |
| AugParty.AlignedElementIsReported | frontend/OtBinMain.cpp:2410-2426 | a common element at the same index everywhere is reported |
| AugParty.ReportedIffAligned | frontend/OtBinMain.cpp:2410-2426 | on a mask of at least one byte the leader's test passes for all draws and all correct transfers if and only if every party keeps the element at the same index |
| AugParty.MisalignedCounterexample | frontend/OtBinMain.cpp:2410-2426 | for two different positions: draws and perfect transfers for which the leader's test fails on a mask of any size |
| AugProtocol.SeededDiffer | frontend/OtBinMain.cpp:3467-3477 | when the driver's generator repeats no block, different pairs of parties have different seeds |
| AugProtocol.GeneratorsReportIffAligned | frontend/OtBinMain.cpp:2232-2241 | for the generators of any symmetric seed matrix with different seeds and equal positions: the element is reported for all generators if and only if its index is the same everywhere |
| AugProtocol.SeededReportIffAligned | frontend/OtBinMain.cpp:3467-3485 | the same for the matrix that the driver makes |
| AugProtocol.Trial | frontend/OtBinMain.cpp:2232-2426 | seeds, shares, transfers and the leader's test in a row: exactly the indices that pass are reported, and every element that all transfers decode at one index is |
| GarbledBloom.ToSet | OPPRFReceiver.cpp:1878-1888 | the set built by `emplace` is increasing and has the same members as the list |
| GarbledBloom.CellsOf | OPPRFReceiver.cpp:1878-1888 | a cell belongs to an element if and only if one of its hashes, reduced by the size of the table, is that cell |
| GarbledBloom.ScanFacts | OPPRFReceiver.cpp:1893-1918 | the scan keeps the first empty cell, fills the other empty ones and sums up exactly the other cells of the element |
| GarbledBloom.ScanTakes | OPPRFReceiver.cpp:1905-1911 | if the blocks drawn are not zero, only the kept cell is still empty |
| GarbledBloom.ScanValues | OPPRFReceiver.cpp:1895-1918 | the first empty cell is kept and the m-th empty one after it holds the m-th block drawn; no block is drawn for any other cell |
| GarbledBloom.InsertionFacts | OPPRFReceiver.cpp:1891-1921 | with an empty cell the element's cells add up to payload XOR OPRF value and only empty cells change, without one nothing does; which cell can be left empty, and exactly when |
| GarbledBloom.Filter.Scan | OPPRFReceiver.cpp:1893-1918 | the loop on the filter in place is the scan; the sent rows agree with the filter on the mask |
| GarbledBloom.Filter.Insert | OPPRFReceiver.cpp:1891-1921 | the insertion in place; it finds a cell if and only if one of the element's cells is empty |
| GarbledBloom.Filter.FillEmpty | OPPRFReceiver.cpp:1950-1962 | every empty cell gets a block of the generator, the i-th the i-th next; no other cell changes; every sent row is the mask prefix of its cell |
| GarbledBloom.SendBF | OPPRFReceiver.cpp:1805-1977 | the rows sent are the mask prefixes of the filter after all insertions and the fill, for every input |
| GarbledBloom.FillValues | OPPRFReceiver.cpp:1950-1962 | an empty cell is filled with the draw whose number is that of the empty cells below it |
| GarbledBloom.UnusedRowIsRandom | OPPRFReceiver.cpp:1950-1962 | the row of a cell that is no position of an inserted element is the mask prefix of that draw |
| GarbledBloom.NoZeroIsSent | OPPRFReceiver.cpp:1950-1962 | with non-zero draws no cell is zero in the filter that is sent |
| GarbledBloom.NothingZeroIff | OPPRFReceiver.cpp:1893-1921 | with non-zero random blocks no stored value is zero if and only if none equals the sum of its element's other cells |
| GarbledBloom.FindsEmptyIff | OPPRFReceiver.cpp:1891-1921 | when nothing stored is zero, an insertion finds an empty cell if and only if the element's positions are not all positions of earlier elements |
| GarbledBloom.NoCellLeft | OPPRFReceiver.cpp:1891-1921 | two elements whose only hash is cell 0, in a table of any size: the second finds no cell |
| GarbledBloom.SamePositions | OPPRFReceiver.cpp:1891-1921 | of any two elements with the same positions the later one finds no cell, when nothing stored is zero |
| GarbledBloom.ElementIsSent | OPPRFReceiver.cpp:1805-1977 | and then the filter sent still holds every such element, whatever is inserted and filled in later |
| GarbledBloom.Decode | OPPRFSender.cpp:1958-1982 | the decoder's result is the XOR over the position list of the received rows and the OPRF value |
| GarbledBloom.DecodingError | OPPRFSender.cpp:1958-1982 | for any two position lists the decoded value differs from the payload by the XOR of the cells counted an odd number of times in one but not the other |
| GarbledBloom.DecodesIff | OPPRFSender.cpp:1958-1982 | the payload comes back on the mask if and only if that XOR is zero there |
| GarbledBloom.RoundTrip | OPPRFReceiver.cpp:1881-1961 | pairwise distinct positions: the non-deduplicating decoder returns the payload on the mask |
| GarbledBloom.RoundTripIff | OPPRFSender.cpp:1964-1975 | in general: if and only if the cells hit an even positive number of times XOR to zero |
| GarbledBloom.EveryElementReturnsIff | OPPRFSender.cpp:1958-1982 | encoder and decoder: every element not covered by earlier ones comes back on the mask if and only if its cells hit an even number of times cancel there |
| GarbledBloom.EveryElementReturns | OPPRFSender.cpp:1958-1982 | in particular every such element with pairwise distinct positions |
| GarbledBloom.SendAndDecode | OPPRFReceiver.cpp:1805-1977 | both routines in a row: the rows sent, what is decoded from them, and that it is the payload |
| GarbledBloom.RepeatedPosition | OPPRFSender.cpp:1964-1975 | one element whose two hashes collide: the encoder has no trouble and the decoder returns the OPRF value |
| DoubleHash.Idx1Reads | OPPRFSender.cpp:1381-1386 | the first index is the little-endian number in the first eight bytes of the hash value modulo the size, and depends on no other byte |
| DoubleHash.SecondIndexIsZero | OPPRFSender.cpp:1384-1389 | the lane-wise shift by 64 makes the second index 0 for every hash value and size |
| DoubleHash.Idxs | OPPRFSender.cpp:1381-1411 | the loop of emplacements builds the set of the position list |
| DoubleHash.Decode2 | OPPRFReceiver.cpp:1231-1259 | the decoder's loop returns what its list of positions from the third on decodes to |
| DoubleHash.DecoderGets | OPPRFReceiver.cpp:1241-1259 | for every filter: its own OPRF value for an even number of hashes, that XOR one cell for an odd number |
| DoubleHash.SetOfElement | OPPRFSender.cpp:1381-1411 | the set of an element is its first cell and cell 0 |
| DoubleHash.CoveredIff | OPPRFSender.cpp:1414-1445 | an element after the first has no cell of its own if and only if its first cell is cell 0 or that of an earlier element |
| DoubleHash.CellZeroIsSent | OPPRFSender.cpp:1414-1445 | cell 0 holds what the first element puts there, whatever is inserted later |
| DoubleHash.EvenHashes | OPPRFReceiver.cpp:1231-1259 | encoder and decoder, even number of hashes: the OPRF value is returned, and the payload comes back if and only if it agrees with that on the mask |
| DoubleHash.OddHashes | OPPRFReceiver.cpp:1231-1259 | encoder and decoder, odd number: the payload of an element not covered by earlier ones comes back if and only if its first cell is cell 0 or cell 0 is zero on the mask |
| BitTests.TestBitNIsTestBit | libOPRF/Hashing/Hints.cpp:27-31 | lane shift, move mask and bit select together test exactly bit N of the block; positions from 128 on select nothing |
| TableHints.MaskEqIff | libOPRF/Hashing/Hints.cpp:101-115 | two codewords have equal masks if and only if they agree at the first eight positions |
| TableHints.MaskBits | libOPRF/Hashing/Hints.cpp:101-115 | bit i of the mask is the codeword's bit at position i; bits without a position are clear |
| TableHints.MaskIndex | libOPRF/Hashing/Hints.cpp:101-115 | a mask is below two to the number of positions |
| TableHints.SlotsDiffer | libOPRF/Hashing/Hints.cpp:89-98 | distinct masks select distinct slots |
| TableHints.MasksRunOut | libOPRF/Hashing/Hints.cpp:74-100 | codewords whose masks all differ are at most as many as there are masks of that many positions |
| TableHints.TableBased.GetMask | libOPRF/Hashing/Hints.cpp:101-115 | the loop computes the mask of the codeword |
| TableHints.TableBased.GetMasks | libOPRF/Hashing/Hints.cpp:74-100 | it succeeds if and only if all masks stay distinct; then they are appended, otherwise all are cleared |
| TableHints.TableBased.GetRandPos | libOPRF/Hashing/Hints.cpp:329-341 | positions are only appended, stay distinct and in range, and fill up to the limit |
| TableHints.TableBased.Retry | libOPRF/Hashing/Hints.cpp:272-321 | when the retry loop ends, the positions are as many as wanted, each is a set bit of a difference, and the masks are those of the codewords, all distinct; draws that lead to such positions end it |
| TableHints.ThreeMasksDiffer | libOPRF/Hashing/Hints.cpp:240-269 | the two positions chosen for three codewords already separate all three masks, so the unchecked call succeeds |
| TableHints.TwoMasksDiffer | libOPRF/Hashing/Hints.cpp:226-239 | the position chosen for two codewords separates their masks |
| TableHints.TableBased.GetPos1 | libOPRF/Hashing/Hints.cpp:218-323 | if it returns: enough distinct positions, one mask per codeword, pairwise distinct, no more codewords than masks, and the bin is one for which the search can end; draws that lead to such positions make it return; otherwise the draws were used up or no position was asked for |
| TableHints.SomeDrawsLead | libOPRF/Hashing/Hints.cpp:218-323 | every bin for which the search can end has draws with which it does, for bins of one, two, three and more |
| TableHints.SingleBinEnds | libOPRF/Hashing/Hints.cpp:222-321 | a bin of one ends if and only if its codeword has as many set bits as positions are wanted, so never for the zero block |
| TableOpprf.OneSlotWritten | OPPRFSender.cpp:882-887 | a slot write changes neither the header nor any other slot |
| TableOpprf.SendBin | OPPRFSender.cpp:843-908 | the row holds the positions, each masked payload in the slot of its mask and zeros elsewhere; the wrong number of positions raises |
| TableOpprf.RowLayout | OPPRFSender.cpp:861-905 | the row byte by byte: position k at offset k, and from offset numBits + v * maskSize on the value of the element with mask v, or zeros |
| TableOpprf.RecvBin | OPPRFReceiver.cpp:838-877 | the receiver reads the slot its own mask selects, inside the row |
| TableOpprf.RoundTrip | OPPRFReceiver.cpp:838-877 | a receiver with the sender's i-th OPRF value recovers the i-th payload on the mask |
| TableOpprf.OtherValue | OPPRFReceiver.cpp:860-877 | with any other value it gets its value plus some slot: a sender's value on a mask collision, zero otherwise |
| TableOpprf.EncodeBin | OPPRFSender.cpp:843-908 | hints and row together: it raises exactly for two or three elements with too few hint bits, otherwise every OPRF value of the bin recovers its payload; it ends only for bins for which the search can end, and does so for draws that lead there |
| Polynomials.RootsVanish | libOPRF/Hashing/Hints.cpp:433-434 | the product of roots is zero exactly at the roots |
| Polynomials.Interpolates | libOPRF/Hashing/Hints.cpp:423 | the interpolation polynomial takes the prescribed values at distinct points |
| Polynomials.TooManyRoots | libOPRF/Hashing/Hints.cpp:423 | a polynomial with at least as many roots as coefficients is zero |
| Polynomials.InterpolationIsUnique | libOPRF/Hashing/Hints.cpp:423 | any polynomial with one coefficient a point and the prescribed values is the interpolation polynomial, so its leading coefficient does not depend on the algorithm |
| Polynomials.WithDummyInterpolates | libOPRF/Hashing/Hints.cpp:423-464 | adding dummy times roots changes no prescribed value and gives at most `degree` coefficients |
| Polynomials.EvalNormalize | libOPRF/Hashing/Hints.cpp:482-487 | dropping leading zero coefficients changes no value |
| Polynomials.EvalZeros | libOPRF/Hashing/Hints.cpp:491-505 | padding with zero coefficients changes no value |
| Polynomials.SetCoeffAppends | libOPRF/Hashing/Hints.cpp:496-500 | setting coefficients in order builds the normal form of the list |
| Polynomials.LeadingWithDummy | libOPRF/Hashing/Hints.cpp:444-464 | the leading coefficient of the padded polynomial is that of the random factor, or of the interpolation polynomial if there is none |
| PolyOpprf.BytesAreACoding | libOPRF/Hashing/Hints.cpp:345-379 | one-byte masks over the field of 256 elements satisfy every law assumed of field and coding |
| PolyOpprf.GetBlkCoefficients | libOPRF/Hashing/Hints.cpp:401-488 | repeated points fail; otherwise the blocks are the coefficients of the padded interpolation polynomial |
| PolyOpprf.EvalPolynomial | libOPRF/Hashing/Hints.cpp:491-505 | the low bytes of the result are the value of the polynomial with these coefficients |
| PolyOpprf.FullDegreeIff | OPPRFSender.cpp:1103-1110 | the coefficient vector has mMaxBinSize entries if and only if the leading coefficient is not zero, and fewer otherwise |
| PolyOpprf.SendBin | OPPRFSender.cpp:1068-1122 | the row holds the padded polynomial, or zeros for an empty bin, and the copy leaves the vector exactly when the degree is not full |
| PolyOpprf.CoefficientBytes | OPPRFSender.cpp:1103-1110 | coefficient i of the row's polynomial is encoded by the bytes from i * maskSize on |
| PolyOpprf.RecvBin | OPPRFReceiver.cpp:976-1000 | the result XOR the OPRF value is the row's polynomial at the OPRF value |
| PolyOpprf.RoundTrip | OPPRFReceiver.cpp:986-1000 | an OPRF value that matches the i-th on the mask recovers the i-th payload on the mask, whatever the other bytes |
| PolyOpprf.EmptyBin | OPPRFSender.cpp:1113-1122 | a zero row gives the receiver its own OPRF value |
| PolyOpprf.EncodeDecode | OPPRFSender.cpp:1068-1122 | sender and receiver of one bin together: sent if and only if the degree is full, the row is then the padded polynomial, what is decoded is its value XOR the OPRF value, and that is the payload |
| Partition.SendRange | OPPRFSender.cpp:830-963 | one range: each of its bins once, in order, in buffers of sixteen rows and a rest |
| Partition.FullBuffers | OPPRFSender.cpp:828-836 | every buffer of a range has sixteen rows, but for the last, which has one to sixteen |
| Partition.Send | OPPRFSender.cpp:809-963 | a thread visits its bins of both types and sends the buffers of its two ranges |
| Partition.Receive | OPPRFReceiver.cpp:801-838 | it completes if and only if the incoming buffers begin with those it expects |
| Partition.Exchange | OPPRFReceiver.cpp:823-838 | with equal counts each k-th buffer has the expected rows and every row goes to the bin it was written for |
| Partition.EveryBinOnce | OPPRFSender.cpp:817-826 | laid end to end the ranges of all threads are all bins of a type, each once |
| Partition.SharesAreEven | OPPRFSender.cpp:817-826 | of each type a thread has the rounded quotient of bins by threads, or one more |
| Partition.OwnersDiffer | OPPRFSender.cpp:817-826 | no bin is visited by two threads |
| Partition.RowsAreBins | OPPRFSender.cpp:828-836 | the rows sent on the first t channels are as many as the bins of the first t threads |
| Partition.MatchingBuffersMatchTotals | OPPRFReceiver.cpp:829-833 | if all channels carry the buffers expected, both sides have the same number of bins |
| SendQueue.StepInv | cryptoTools/Network/BtIOService.cpp:213-297 | every step keeps: one write under way and it is the front's, logs are consecutive stretches of the dispatch order, counters are the sums they stand for |
| SendQueue.SendsInOrder | cryptoTools/Network/BtIOService.cpp:336-369 | after any run, operations behind a close included: completions and wire follow dispatch order, a completed close means everything before it completed, outstanding is the bytes queued and not completed |
| SendQueue.StandstillIff | cryptoTools/Network/BtIOService.cpp:263-291 | when no handler and no write is left, everything dispatched is on the wire and completed if and only if nothing was ever queued while a close was waiting |
| SendQueue.StalledForever | cryptoTools/Network/BtIOService.cpp:283-291 | with something queued and nothing under way, no run writes or completes anything again |
| SendQueue.StallingRunStalls | cryptoTools/Network/BtIOService.cpp:283-291 | the run: a message, a close and any further operation, a second close included, dispatched before the message is written |
| SendQueue.GateSuffices | cryptoTools/Network/BtChannel.cpp:34-47 | if nothing is dispatched after a close, nothing is queued behind one, in any run |
| SendQueue.NothingIsForgotten | cryptoTools/Network/BtIOService.cpp:263-281 | so with the gate in place a standstill means that everything dispatched is on the wire and completed and nothing is outstanding |
| SendQueue.StepsRunOut | cryptoTools/Network/BtIOService.cpp:263-281 | every step other than a dispatch decreases a measure |
| SendQueue.RunsEnd | cryptoTools/Network/BtIOService.cpp:263-281 | over any run: at most six events for each operation dispatched, and no more than the measure after the last dispatch |
| SendQueue.PeakCovers | cryptoTools/Network/BtIOService.cpp:352-354 | the peak counter never falls, moves only to the current count and covers it |
| SendQueue.PeakOfRun | cryptoTools/Network/BtIOService.cpp:352-354 | over any run that dispatches less than 2^64 bytes it is the largest number of bytes outstanding |
| SendQueue.SizesAreBytes | cryptoTools/Network/BtIOService.cpp:345-354 | the counters add up the numbers of bytes of the messages, and nothing for a close |
| RecvQueue.StepInv | cryptoTools/Network/BtIOService.cpp:98-211 | every step keeps the queue, the completion log and the delivered messages consistent |
| RecvQueue.HeaderStep | cryptoTools/Network/BtIOService.cpp:121-157 | a header goes on to the body for every message at a resizable receive, and at one of n bytes if and only if the message has n bytes |
| RecvQueue.ReceivesInOrder | cryptoTools/Network/BtIOService.cpp:98-211 | after any run the i-th receive dispatched completes i-th with the i-th message, of the size it asked for, and a completed close means all before it completed |
| RecvQueue.RefusedForever | cryptoTools/Network/BtIOService.cpp:139-156 | after a message of the wrong size nothing is delivered and nothing completes, ever |
| RecvQueue.RefusingRunRefuses | cryptoTools/Network/BtIOService.cpp:139-156 | the run from the empty queue to the refusal, for every wrong size |
| RecvQueue.AcceptingRunAccepts | cryptoTools/Network/BtIOService.cpp:108-196 | the run from the empty queue: a resizable receive of any message, or a fixed one of its size, ends with the message delivered and the receive completed |
| RecvQueue.CompletesIff | cryptoTools/Network/BtIOService.cpp:139-206 | at a standstill of any run everything completed if and only if nothing was queued while a close was waiting and every receive has a message and is resizable or of its size |
| RecvQueue.WrongSizeNeverCompletes | cryptoTools/Network/BtIOService.cpp:139-156 | after a receive whose message has another size no run is complete, and nothing from that message on is delivered |
| RecvQueue.StandstillIff | cryptoTools/Network/BtIOService.cpp:180-206 | at a standstill the next message is missing, or one was refused, or everything completed if and only if nothing was queued while a close was waiting |
| RecvQueue.StalledForever | cryptoTools/Network/BtIOService.cpp:201-206 | with something queued and nothing under way, no run delivers or completes anything again |
| RecvQueue.GateSuffices | cryptoTools/Network/BtChannel.cpp:89-110 | if nothing is dispatched after a close, nothing is queued behind one, in any run |
| RecvQueue.NothingIsForgotten | cryptoTools/Network/BtIOService.cpp:180-199 | with the gate in place a standstill is complete if and only if every receive has a message of the size of its buffer; otherwise the next message is missing or one was refused |
| RecvQueue.TotalCounts | cryptoTools/Network/BtIOService.cpp:303-320 | after any run the counter is the number of bytes asked for by the fixed receives queued so far, modulo 2^64 |
| Transport.BtSocket.DispatchSend | cryptoTools/Network/BtIOService.cpp:336-349 | raises exactly on an empty message and otherwise posts one handler |
| Transport.BtSocket.DispatchRecv | cryptoTools/Network/BtIOService.cpp:303-320 | raises exactly on a fixed receive of size 0 and otherwise posts one handler |
| Transport.BtSocket.RunSendStrand | cryptoTools/Network/BtIOService.cpp:345-368 | running a send handler is the Run step of the machine |
| Transport.BtSocket.WriteCompleted | cryptoTools/Network/BtIOService.cpp:225-264 | a completed write is the Complete step |
| Transport.BtSocket.RunRecvStrand | cryptoTools/Network/BtIOService.cpp:314-333 | running a receive handler is the Run step |
| Transport.BtSocket.HeaderRead | cryptoTools/Network/BtIOService.cpp:108-157 | the header step goes on to the body for a resizable receive, and for a fixed one exactly when the size in the header is its own; otherwise it refuses |
| Transport.BtSocket.BodyRead | cryptoTools/Network/BtIOService.cpp:160-196 | the body step delivers the message, fulfils the promise and posts the pop |
| Transport.BtSocket.AsyncSend | cryptoTools/Network/BtChannel.cpp:34-47 | raises exactly after close or when the size is 0 modulo 2^32; otherwise posts the first size modulo 2^32 bytes |
| Transport.BtSocket.AsyncRecv | cryptoTools/Network/BtChannel.cpp:89-110 | raises exactly after close or when the size is 0 modulo 2^32 |
| Transport.BtSocket.AsyncRecvResizable | cryptoTools/Network/BtChannel.cpp:112-131 | raises exactly after close |
| Transport.BtSocket.Close | cryptoTools/Network/BtChannel.cpp:164-182 | shuts the gate and dispatches both close operations; the first call makes them the last of their queues, another call dispatches them again |
| Transport.DeliveredInOrder | cryptoTools/Network/BtIOService.cpp:98-297 | both ends together, closes in between included: the i-th message delivered is the i-th message dispatched, in a buffer of the size the i-th receive asked for |
| GaloisField.TimesComm | cryptoTools/Crypto/AES.cpp:27-55 | multiplication of bytes (section 4.2 of FIPS 197) is commutative |
| GaloisField.TimesAssoc | cryptoTools/Crypto/AES.cpp:27-55 | and associative |
| GaloisField.AllFixed | cryptoTools/Crypto/AES.cpp:42-55 | every byte is its own 256th power |
| GaloisField.InverseLaw | cryptoTools/Crypto/AES.cpp:27-55 | the 254th power is the inverse of every byte but zero |
| GaloisField.IsFieldArithmetic | cryptoTools/Crypto/AES.cpp:27-55 | the bytes are a field of characteristic two |
| AesRounds.SubByteInverts | cryptoTools/Crypto/AES.cpp:771-785 | inverse and forward S-box undo each other |
| AesRounds.MixColumnsInverts | cryptoTools/Crypto/AES.cpp:757-767 | the inverse column mixing undoes the column mixing and conversely |
| AesRounds.InvMixColumnsXor | cryptoTools/Crypto/AES.cpp:757-767 | the inverse column mixing is linear, which is what moving round keys through it needs |
| Aes.KeyGenHelperExpands | cryptoTools/Crypto/AES.cpp:9-16 | three shifted XORs and the broadcast word compute one step of KeyExpansion (section 5.2 of FIPS 197) |
| Aes.RoundConstants | cryptoTools/Crypto/AES.cpp:27-40 | the ten constants are the powers of x |
| Aes.RoundInverts | cryptoTools/Crypto/AES.cpp:42-55 | one decryption round with the unmixed key undoes one encryption round |
| Aes.DecryptEncrypt | cryptoTools/Crypto/AES.cpp:742-785 | the equivalent inverse cipher (section 5.3.5 of FIPS 197) inverts encryption for every key schedule and block |
| Aes.EncryptDecrypt | cryptoTools/Crypto/AES.cpp:42-55 | and encryption inverts it |
| Aes.AES.SetKey | cryptoTools/Crypto/AES.cpp:27-40 | the round keys are the key expansion of the user key |
| Aes.AES.EcbEncBlock | cryptoTools/Crypto/AES.cpp:42-55 | the result is the cipher of section 5.1 of FIPS 197 |
| Aes.AES.EcbEncBlocks | cryptoTools/Crypto/AES.cpp:64-189 | each of the first blockLength blocks is encrypted, the rest is untouched, also when input and output are the same array |
| Aes.AESDec.SetKey | cryptoTools/Crypto/AES.cpp:742-769 | the schedule is reversed with the nine middle keys unmixed |
| Aes.AESDec.EcbDecBlock | cryptoTools/Crypto/AES.cpp:771-785 | the result is the equivalent inverse cipher |
| Aes.EncryptThenDecrypt | cryptoTools/Crypto/AES.cpp:742-785 | two objects with the same key: the one encrypts under the schedule of the key, the other decrypts that with the equivalent inverse cipher to the plaintext |
| AesVectors.BytesMove | cryptoTools/Crypto/AES.cpp:42-55 | where the word rotation of the key expansion and the row shift take each byte |
| AesVectors.Rows4To7 | cryptoTools/Crypto/AES.cpp:42-55 | rows 4 to 7 of the S-box in figure 7 of FIPS 197, 53 to ed among them; three more such lemmas state the other rows |
| AesVectors.ExpansionA | cryptoTools/Crypto/AES.cpp:27-40 | the schedule of the key 2b7e151628aed2a6abf7158809cf4f3c, all eleven round keys, as in appendix A.1 of FIPS 197 |
| AesVectors.ExpansionK | cryptoTools/Crypto/AES.cpp:27-40 | the schedule of the key 000102030405060708090a0b0c0d0e0f, as in appendix C.1 |
| AesVectors.CipherExample | cryptoTools/Crypto/AES.cpp:42-55 | appendix C.1: under that key 00112233445566778899aabbccddeeff encrypts to 69c4e0d86a7b0430d8cdb78070b4c55a and back |
| AesVectors.RunExample | cryptoTools/Crypto/AES.cpp:742-785 | and so through the two classes |
| Prng.CounterBytes | cryptoTools/Crypto/PRNG.cpp:103-107 | the block of a counter: its digits in base 256, lowest first, in the low half and zeros in the high half |
| Prng.KeyBlockRepeatsIff | cryptoTools/Crypto/PRNG.cpp:101-111 | two blocks of a key stream are equal if and only if their counters agree modulo 2^64 |
| Prng.KeyBytes | cryptoTools/Crypto/PRNG.cpp:101-111 | byte 16 i + j of the stream is byte j of the encryption of counter i |
| Prng.RefillIsSeamless | cryptoTools/Crypto/PRNG.cpp:101-111 | refilling an exhausted buffer changes nothing in the bytes still to come |
| Prng.SeededStreams | cryptoTools/Crypto/PRNG.cpp:27-37 | after seeding the output is the key stream from its start |
| Prng.SplitRequests | cryptoTools/Crypto/PRNG.h:47-66 | two requests return what one request of the joint length returns |
| Prng.PRNG.constructor | cryptoTools/Crypto/PRNG.cpp:15-24 | 1024 zero bytes and then the stream of the zero seed |
| Prng.PRNG.Seeded | cryptoTools/Crypto/PRNG.cpp:27-37 | the stream of the seed from its first byte |
| Prng.PRNG.Move | cryptoTools/Crypto/PRNG.cpp:40-56 | the new object goes on where the old one was; the old one has no buffer |
| Prng.PRNG.SetSeed | cryptoTools/Crypto/PRNG.cpp:59-74 | from any state, a moved-from one included, the stream of the new seed starts |
| Prng.PRNG.RefillBuffer | cryptoTools/Crypto/PRNG.cpp:101-111 | the buffer holds the encryptions of the next 64 counters, which wrap at 2^64 |
| Prng.PRNG.Get | cryptoTools/Crypto/PRNG.h:47-66 | the bytes returned are the next of the stream, wherever refills fall; it never returns exactly for a non-empty request to a moved-from object |
| Sha1.ChunkingIsInvisible | cryptoTools/Crypto/sha1.cpp:182-204 | absorbing a then b leaves the digest, the whole buffer and the index of absorbing a + b |
| Sha1.AbsorbStretch | cryptoTools/Crypto/sha1.cpp:188-200 | a stretch that fits is one copy, with a compression exactly when it fills the buffer |
| Sha1.MessageDigest | cryptoTools/Crypto/sha1.cpp:173-223 | after a message: the chain over its whole chunks, and a buffer of the partial chunk followed by the tail of the chunk before |
| Sha1.DigestOf | cryptoTools/Crypto/sha1.cpp:212-223 | the digest of a message is the chain over its whole chunks, compressed once more with the partial chunk and what is behind it if there is one |
| Sha1.Hash | cryptoTools/Crypto/sha1.cpp:182-223 | and so for a new object, one update and the call of Final |
| Sha1.SHA1.Reset | cryptoTools/Crypto/sha1.cpp:173-181 | zero digest, zero buffer, index 0 |
| Sha1.SHA1.Update | cryptoTools/Crypto/sha1.cpp:182-204 | the loop absorbs the data byte for byte and keeps the index below 64 |
| Sha1.SHA1.Final | cryptoTools/Crypto/sha1.cpp:212-223 | a partly filled buffer is compressed with its stale tail |
| Sha1.SHA1.Assign | cryptoTools/Crypto/sha1.cpp:224-232 | digest and buffer are copied; the states agree if and only if the indices did |
| BitVectors.ClearCounts | cryptoTools/Common/BitVector.cpp:298-302 | `b &= b - 1` removes exactly one set bit |
| BitVectors.WholeBytesCountIff | cryptoTools/Common/BitVector.cpp:291-305 | counting whole bytes equals counting the bits if and only if the padding is clear |
| BitVectors.BitVector.Resize | cryptoTools/Common/BitVector.cpp:88-105 | a larger allocation keeps the bytes in use and clears the rest, otherwise no byte changes; the padding is clear if and only if those bits of the old allocation were |
| BitVectors.BitVector.Reset | cryptoTools/Common/BitVector.cpp:107-125 | all bits and the padding are clear |
| BitVectors.BitVector.SetBit | cryptoTools/Common/BitVector.cpp:141-145 | raises exactly past the end; otherwise changes that bit alone |
| BitVectors.BitVector.Append | cryptoTools/Common/BitVector.cpp:49-78 | for every alignment of both ends the new bits are the old ones followed by the source's; when exactly the padding is clear afterwards, for either path |
| BitVectors.BitVector.Copy | cryptoTools/Common/BitVector.cpp:127-131 | the bits are the slice of the source, a copy into itself included; that one is undefined exactly when whole bytes move within overlapping ranges |
| BitVectors.BitVector.HammingWeight | cryptoTools/Common/BitVector.cpp:291-305 | the number of set bits of all bytes in use, which is that of the vector if and only if the padding is clear |
| BitVectors.BitVector.Parity | cryptoTools/Common/BitVector.cpp:308-333 | the parity of the vector's bits, never of the padding |
| BitVectors.ParityIsWeight | cryptoTools/Common/BitVector.cpp:291-333 | with clear padding the weight is the number of set bits of the vector and the parity is it modulo 2 |

## Left out

- TableHints.TableBased.GetPos1: does not model that the random retries end; draws come from a finite list and the result says whether they sufficed, because termination is only probable even for bins for which it is possible.
- GarbledBloom.SendBF: does not model the threads that share one filter, nor the loop over several tables, whose iterations use separate filters; data races are not modelled.
- PolyOpprf.SendBin: does not model what is read past the coefficient vector, because that is undefined; the outcome is reported instead.
- Polynomials.Interpolates: does not model the algorithm inside NTL's interpolate, only its contract, proved for an interpolation that adds one point at a time.
- MpscQueue.StepInv: does not model memory orders weaker than one atomic access after the other.
- Transport.BtSocket.AsyncSend: does not model a gate check that races with close in another thread (the queues below it are proved for operations in any order), nor resetStats during a transfer, nor I/O errors, which raise in the source.
- Aes.AES.EcbEncBlocks: does not model input and output pointers that overlap at an offset.
- Sha1.MessageDigest: does not model the compression function, which is a parameter; the class has no padding and no standard initial state.
- TParty.CommonElementIsReported: does not model hashing into bins; that transfers of a common element decode correctly is a hypothesis, which the encodings' round trips discharge for a bin that both sides use.
- PartyProtocol.ProtocolReportsCommonElement: does not model the bytes of a message or a send that blocks; that the messages decode correctly is a hypothesis, for every row they may be made from.
- Cuckoo and simple hashing of elements into bins (`libOPRF/Hashing/CuckooHash.cpp`, `SimpleHash.cpp`): not modelled; a common element's bin at the receiver is assumed to be one of its bins at the sender.
- Base oblivious transfers, the extension and the oblivious PRF itself: foreign libraries; a value both sides agree on.
- Security and failure probabilities: only completeness and exact error terms are stated.
- Sockets, acceptors, name resolution, timers, logging, benchmarks and the disabled protocol variants.
- `BitVector::equals`, `nChoosek`, `log2floor`, `ecbEncCounterMode` and the two-, four- and sixteen-block encryptions: nothing harder than what is modelled.
