# osIROSE: a verified model of the server's core logic

osIROSE is a game server. Below its sockets, database and script layers sit a few
self-contained pieces of logic; this project models them in Dafny and proves what they
promise. `dafny verify dfyconfig.toml` checks everything.

| file | what it models |
|---|---|
| `LinearCongruence.dfy` | generators modulo a power of two: the full-period theorem, proved from divisibility of the geometric sum |
| `KeySchedule.dfy` | the four generators of the cipher and, as functions, the key and index tables drawn from them |
| `KeySequence.dfy` | which generator outputs, counted from the seed, the tables hold |
| `Checksum.dfy` | the CRC-8 table, the polynomial behind it, linearity |
| `HeaderLayout.dfy` | the two wire layouts and the plain layout of the 40-bit header |
| `Cipher.dfy` | encoding and decoding as functions; decode undoes encode; damage is noticed |
| `WireBytes.dfy` | the encoded packet byte by byte: header layout, key entries, checksum |
| `PacketCodec.dfy` | the generator and codec objects, tables filled and buffers changed in place |
| `Framing.dfy` | the two-phase receive automaton on encoded packets and on arbitrary bytes, and the socket object |
| `Handling.dfy` | what the dispatched handlers take off the receive queue |
| `QueuedPackets.dfy` | how long the packets are that arbitrary bytes put on the receive queue |
| `SendPump.dfy` | the two-queue, two-mutex send protocol, one lock operation or queue operation per step |
| `FuzzyMatch.dfy` | the budgeted recursive matcher, its buffers and its scores |
| `FuzzyMeaning.dfy` | when characters are the same letter, what case changes, what a score counts |
| `FuzzyBudget.dfy` | names on which the matcher's budget or its buffers fall short |
| `Party.dfy` | parties, components and the cascade of removals |
| `PartyEffects.dfy` | what each party message does to members, leaders and components |
| `SaveCharacter.dfy` | the inventory diff of saveCharacter against the stored rows, and loading |
| `InventorySystem.dfy` | swap, equip, drop, add and remove on the 140 slots |
| `InventoryEffects.dfy` | where items end up |
| `WorkerPool.dfy` | the thread pool with its queue, stop flag and condition variable |
| `RosePacket.dfy` | the bounded packet writer and reader, any schema of fields, broadcasts |
| `ListPackets.dfy` | the channel list and character list packets on top of it |
| `EndToEnd.dfy` | values packed, encoded, framed, decoded and read |
| `EntityIds.dfy` | the id allocator, deferred create and delete commands, lookup maps |
| `EntityEffects.dfy` | how an entity gets its id, is found, and goes |
| `Options.dfy` | a value that may be missing |

How to read the model:

- A method that changes state is proved against a function of the old state; the theorems
  are lemmas about those functions, quantified over all inputs or all runs.
- Integers are unbounded in Dafny, so widths are explicit. The generators' signed overflow,
  undefined in C++, is taken as wrapping, and their division truncates toward zero. Bit
  fields and multi-byte values are laid out little-endian, lowest bit first.
- The server and client variants of a codec function are one method with a `dir` parameter,
  and its loops are split into small methods (`SealBody`, `OpenBody`, `MaskHead`).
- A shared party object is an index into the list of all parties made so far. The leader of
  a party that has just become empty is unspecified; the code reads past the end there
  (src/rosecommon/include/partybase.h:92). `capacity_` is never enforced by the code, so the
  model has no bound on members either.
- Reads, write completions, packet handling, script answers, database order and thread
  schedules are arbitrary: they are parameters of steps, and a run is any sequence of steps.

Where the code does not keep what one might expect, a failing input is given and the exact
condition is proved:

- At most one write is outstanding on a socket, in every run, if and only if at most one
  thread uses it (`OneWriteIffOneThread`). With two threads both can look at the discard queue
  before either takes the send lock (`TwoWritesCanOverlap`).
- Every buffer outlives its write, in every run, if and only if at most one thread uses the
  socket (`ReleasesInTimeIffOneThread`). Otherwise a later write may complete first, and the
  buffer of the earlier one is released under it (`LateWriteLosesItsBuffer`).
- Between calls, the pump can go on with what is queued if and only if OnSend has never
  refused (`AliveIffNeverRefused`); one refusal and one more call stall it for good
  (`RefusalReachesStall`, `RefusalStallsForever`). Every OnSend in the repository accepts
  (src/rosecommon/src/crosesocket.cpp:153-159, src/rosecommon/src/croseisc.cpp:93-97,
  src/core/include/inetwork.h:164), so only one supplied by a user of the library can refuse.
- Whatever bytes arrive, decoding stays inside the receive buffer if and only if no header
  announces six bytes and subtracts seven from them (`AnyBytesStayInBounds`); such a header
  exists for every key table (`SomeHeaderOverruns`), and no encoder produces one
  (`OfferedIsPossible`).
- Every packet that arbitrary bytes put on the receive queue has at least six bytes if and only
  if none is completed under a header whose size is less than six more than its EncryptValue
  (`LongIffNoShortHeader`); for every key table six bytes queue an empty packet
  (`SomeHeaderQueuesNothing`).
- saveCharacter mirrors the inventory if and only if no occupied slot had two rows before
  (`SavedMirrors`); two rows for one slot both stay (`TwoRowsStay`).
- Loading after saving throws if and only if some item has no definition (`SavedLoads`), and
  else restores an item if and only if its script loads (`SaveThenLoad`); with a script that
  does not load it is lost (`UnbuildableIsLost`).
- Live ids are distinct in every run if and only if ids are only taken while fewer than 65536
  are outstanding (`DistinctIffFewEnough`); with 65536 items on the map the next one gets the
  id of the first (`OneTooMany`).
- A live named entity is found by its id if and only if that id is not 0 (`FoundIffNotZero`);
  the first character loaded gets id 0 (`FirstIsNotFound`).
- A packet that fits is read back if and only if its strings hold no zero byte and its lists
  have fewer than 256 rows (`ReadsBackIffClean`); a zero is lost (`ZeroIsLost`), and so are 256
  channels that fit into 1547 bytes (`ManyChannelsAreLost`).
- A packet comes back from the codec byte for byte if and only if its CRC field happens to hold
  the header constant and the checksum that the codec leaves there (`WholeIff`); none with CRC 0
  does (`CrcFieldIsLost`). All other bytes come back (`CodecRoundTrip`), which is enough for
  every field to arrive (`MessagesArrive`).
- The fuzzy matcher stays below its budget of ten calls if and only if the unlimited search
  does, for which three characters of the name that occur in the pattern are few enough; then
  its score is the maximum (`FuzzyMatch`). Beyond that it can miss the best alignment
  (`BudgetMissesTheBest`). With a result buffer of more than 256 bytes it reads past the end of
  an array if and only if a skipped letter wins (`FuzzyMatch`, `LongBufferIsUnsafe`).

## Model

| member | source | states |
|---|---|---|
| LinearCongruence.GeometricDivisibility | src/rosecommon/src/crosecrypt.cpp:29-47 | for a multiplier 1 modulo 4, 1+a+...+a^(n-1) is divisible by 2^k exactly when n is: the arithmetic reason the generators cycle |
| LinearCongruence.OrbitReturns | src/rosecommon/src/crosecrypt.cpp:29-47 | a state of a generator modulo 2^k recurs after n steps if and only if 2^k divides n |
| LinearCongruence.OrbitDistinct | src/rosecommon/src/crosecrypt.cpp:29-47 | two states less than a full period apart differ |
| LinearCongruence.OrbitReaches | src/rosecommon/src/crosecrypt.cpp:29-47 | from any state every residue is reached within one period |
| KeySchedule.AdvanceIsNext | src/rosecommon/src/crosecrypt.cpp:29-47 | each of the four 32-bit steps, masks included, is a full-period step modulo 2^31 or 2^32 |
| KeySchedule.FreshComes | src/rosecommon/src/crosecrypt.cpp:68-85 | for every seed and any fewer than 2048 used values, some later draw is unused |
| KeySchedule.RetryShortensDistance | src/rosecommon/src/crosecrypt.cpp:72-76 | a rejected draw shortens the distance along the cycle to the next unused value by one, so each retry loop ends |
| KeySchedule.DrawStopsAtFirstFresh | src/rosecommon/src/crosecrypt.cpp:72-76 | the retry loop stops at the first unused value of the generator's sequence |
| KeySchedule.KeyTableWellMixed | src/rosecommon/src/crosecrypt.cpp:68-77 | row 0 of the key table is pairwise distinct and entry j of every later row differs from row 0's entries before j |
| KeySchedule.IndexTableNeverRetries | src/rosecommon/src/crosecrypt.cpp:79-84 | the index table is 512 consecutive draws, pairwise distinct and below 0x800: not one is rejected |
| KeySequence.TablesFollowTheSeed | src/rosecommon/src/crosecrypt.cpp:68-85 | row i of the key table lists the outputs of generator i mod 4, started at the seed, from where row i - 4 ended, leaving out exactly those among the first entries of row 0; the index table goes on with the next 512 outputs of the second generator |
| KeySequence.FirstEntries | src/rosecommon/src/crosecrypt.cpp:72-76 | the first entry of a row is the very next output |
| KeySequence.FirstColumn | src/rosecommon/src/crosecrypt.cpp:29-47 | the first entries of rows 0 to 3 as arithmetic on the seed |
| KeySequence.StepIs | src/rosecommon/src/crosecrypt.cpp:29-47 | each generator step is its multiplication and addition modulo 2^32 or 2^31 |
| PacketCodec.RoseRandomNumber.Get | src/rosecommon/src/crosecrypt.cpp:29-58 | steps the selected seed only and returns its output |
| PacketCodec.PacketCodec.ChangeSeed | src/rosecommon/src/crosecrypt.cpp:68-85 | ends for every seed and leaves exactly the tables of that seed, whatever was there before |
| PacketCodec.PacketCodec.FillEntry | src/rosecommon/src/crosecrypt.cpp:72-76 | the do-while of one entry ends, stores the first unused draw and touches no other entry or seed |
| PacketCodec.PacketCodec.FindDupTable | src/rosecommon/src/crosecrypt.cpp:220-230 | true exactly when the value is in an earlier row (bar its last column) or earlier in this row |
| PacketCodec.PacketCodec.FindDupIndex | src/rosecommon/src/crosecrypt.cpp:232-237 | true exactly when the value is among the first entries |
| PacketCodec.PacketCodec.EncodePacket | src/rosecommon/src/crosecrypt.cpp:93-141 | the in-place encoders of both directions compute Encode, on which the round trip is proved |
| PacketCodec.PacketCodec.DecodePacketHeader | src/rosecommon/src/crosecrypt.cpp:143-169 | the in-place header decoders compute DecodeHeader |
| PacketCodec.PacketCodec.DecodePacketBody | src/rosecommon/src/crosecrypt.cpp:171-218 | the in-place body decoders answer Accepts and compute DecodeBody, also on rejection |
| HeaderLayout.PlainBijective | src/rosecommon/include/crosecrypt.h:119-135 | the plain layout loses nothing of the word or of the fifteen fields |
| HeaderLayout.HeadRoundTrip | src/rosecommon/include/crosecrypt.h:138-144 | every whole value stored in the Head struct reads back |
| HeaderLayout.LayoutBijective | src/rosecommon/include/crosecrypt.h:81-116 | both wire layouts are bijections between 40-bit words and fields |
| HeaderLayout.KeyCancels | src/rosecommon/include/crosecrypt.h:146-167 | mask, overwrite the table value, mask again: every other field is back, in both layouts |
| Checksum.TableIsPolynomial | src/rosecommon/include/crosecrypt.h:34-50 | all 256 entries are the reflected polynomial x^8+x^5+x^4+1 |
| Checksum.TableLinear | src/rosecommon/include/crosecrypt.h:34-50 | the table respects exclusive or |
| Checksum.TableKernel | src/rosecommon/include/crosecrypt.h:34-50 | only zero maps to zero, so the linear table is a permutation |
| Checksum.CrcLinear | src/rosecommon/src/crosecrypt.cpp:177-185 | the checksum of a difference is the difference of the checksums, for bodies of any length |
| Checksum.CrcOfOneByte | src/rosecommon/src/crosecrypt.cpp:177-185 | a difference confined to one byte never has checksum zero |
| WireBytes.OutHeadBytes | src/rosecommon/src/crosecrypt.cpp:94-100 | the five header bytes an encoder starts from, bit by bit from the first four bytes of the packet |
| WireBytes.ServerLayout | src/rosecommon/include/crosecrypt.h:81-97 | which bits of the header stand where in HeadCryptedServer |
| WireBytes.ClientLayout | src/rosecommon/include/crosecrypt.h:100-116 | which bits of the header stand where in HeadCryptedClient |
| WireBytes.HeaderOnWire | src/rosecommon/src/crosecrypt.cpp:101-115 | the first five bytes of an encoded packet are the header in the wire layout, masked with entry 0x100 of rows 0 to 4, the table value in clear |
| WireBytes.BodyOnWire | src/rosecommon/src/crosecrypt.cpp:108-112 | byte i of the body is xored with the low byte of entry (0x100 + i) mod 0x800 of row (4 + i) mod 16 |
| WireBytes.BodyFromWire | src/rosecommon/src/crosecrypt.cpp:181-192 | decoding unmasks with row and column of the received header and leaves every other byte but size and type |
| WireBytes.ChecksumOnWire | src/rosecommon/src/crosecrypt.cpp:103-113 | byte 5 is the shift-register checksum, from 0, of the five plain header bytes and the plain body |
| Cipher.AnyHeadDecodes | src/rosecommon/src/crosecrypt.cpp:143-169 | for every key table, direction and header, and whatever lay under it, the sealed header decodes to itself |
| Cipher.HeadDecodes | src/rosecommon/src/crosecrypt.cpp:93-169 | for every key table and direction, header decoding of an encoded header gives the header it was made from |
| Cipher.HeaderRoundTrip | src/rosecommon/src/crosecrypt.cpp:143-169 | the size of an encoded packet comes back from its first six bytes alone |
| Cipher.BodyRoundTrip | src/rosecommon/src/crosecrypt.cpp:171-218 | body decoding of an encoded packet succeeds and restores all but bytes 4 and 5 |
| Cipher.CodecRoundTrip | src/rosecommon/src/crosecrypt.cpp:93-218 | for every seed, direction, size 6..0x7FF and type below 0x800, a second codec of the same seed gets the size, acceptance, bytes 0-3 and 6..n-1 |
| Cipher.WholeIff | src/rosecommon/src/crosecrypt.cpp:187-192 | a delivered packet equals the packed one if and only if bytes 4 and 5 already held 0x88 (server) or 0x08 (client) and the checksum |
| Cipher.CrcFieldIsLost | src/rosecommon/src/crosecrypt.cpp:187-192 | no packet with CRC 0 comes back byte for byte |
| Cipher.AcceptedIffSyndromeMatches | src/rosecommon/src/crosecrypt.cpp:171-218 | next to an intact packet, another body and checksum under the same header is accepted if and only if the checksum of the difference matches |
| Cipher.OneByteDamageRejected | src/rosecommon/src/crosecrypt.cpp:171-218 | any change of one body byte or of the checksum byte is rejected, for every length |
| Framing.FramingIsExact | src/core/src/cnetwork_asio.cpp:234-266 | in every run, for any packets and any cutting into reads: what was queued is a prefix of the packets in order, all of them once the bytes are used up, and offset < size <= 0x7FF |
| Framing.OfferedIsPossible | src/rosecommon/src/crosesocket.cpp:80-151 | in no such run does a completed read make decoding leave the buffer |
| Framing.ReadKeepsProgress | src/core/src/cnetwork_asio.cpp:234-266 | any partial or complete read keeps the invariant that links buffer, offset, size, queue and unread bytes |
| Framing.HeaderCompletes | src/rosecommon/src/crosesocket.cpp:83-97 | the sixth byte starts the body phase with the true size, or ends a bare header packet |
| Framing.BodyCompletes | src/rosecommon/src/crosesocket.cpp:99-148 | the last byte queues exactly the delivered packet and resets the automaton |
| Framing.DecodableIffNoWrap | src/rosecommon/src/crosecrypt.cpp:195-210 | body decoding of a receive buffer stays inside it if and only if the size is at least EncryptValue |
| Framing.AnyBytesStayInBounds | src/core/src/cnetwork_asio.cpp:234-266 | for any bytes in any cutting: offset < size <= 0x7FF throughout, and the next read is decoded inside the buffer if and only if it does not complete a header of size 6 and EncryptValue 7 |
| Framing.SomeHeaderOverruns | src/rosecommon/src/crosecrypt.cpp:195-210 | six bytes that complete such a header, for every key table |
| Handling.HandleTakesFirst | src/rosecommon/src/crosesocket.cpp:124-146 | a handler on an active connection with a packet waiting takes the first and decides whether the connection goes on; else nothing happens |
| Handling.HandledAreFirst | src/rosecommon/src/crosesocket.cpp:124-146 | in every run the handled packets are the first so many deliveries as handlers found a packet waiting |
| Handling.EverythingIsHandled | src/rosecommon/src/crosesocket.cpp:124-146 | once the bytes are used up and as many accepting handlers as packets have come, every packet has been handled in order and the queue is empty |
| Handling.RefusalIsTheLast | src/rosecommon/src/crosesocket.cpp:138-142 | after a refusal nothing more is handled in any continuation |
| QueuedPackets.LongIffNoShortHeader | src/rosecommon/src/crosesocket.cpp:99-121 | for any bytes in any cutting, all queued or handled packets have at least six bytes if and only if no packet was completed under a header whose size is less than EncryptValue plus 6 |
| QueuedPackets.ReceivedQueues | src/rosecommon/src/crosesocket.cpp:99-121 | a completed read queues at most one packet, shorter than six bytes exactly under such a header |
| QueuedPackets.SomeHeaderQueuesNothing | src/rosecommon/src/crosesocket.cpp:117-121 | for every key table, six bytes after which the link is active and the queue holds one empty packet |
| Framing.ClientSocket.ResetInternalBuffer | src/core/include/cnetwork_asio.h:95-98 | offset 0, size 6, nothing else |
| Framing.ClientSocket.OnReceived | src/rosecommon/src/crosesocket.cpp:80-151 | decodes the buffer in place as the automaton does, for any bytes whose decoding stays inside it, and says whether to go on |
| Framing.ClientSocket.OnReadCompleted | src/core/src/cnetwork_asio.cpp:243-266 | for any bytes that do not complete an overrunning header, one completion is one step of the automaton and keeps its invariant; a refusal shuts the connection |
| Framing.ClientSocket.HandleNext | src/rosecommon/src/crosesocket.cpp:124-146 | takes at most one packet, in order, and a refusal shuts the connection |
| SendPump.NextInv | src/core/src/cnetwork_asio.cpp:152-232 | every step of every thread keeps mutual exclusion, queue order, the account of each buffer and the absence of lost wake-ups |
| SendPump.SentOnceInOrder | src/core/src/cnetwork_asio.cpp:161-183 | in every interleaving each buffer is encoded once and in queue order, no write starts twice, and without refusals every encoded buffer's write was started |
| SendPump.EveryCallIsQueued | src/core/src/cnetwork_asio.cpp:225-232 | in every run the buffers given to send_data are those queued plus those of threads about to queue theirs |
| SendPump.NeverStalls | src/core/src/cnetwork_asio.cpp:152-232 | without refusals, something queued while no thread is inside means a write is outstanding |
| SendPump.NeverDeadlocks | src/core/src/cnetwork_asio.cpp:152-232 | while some thread is inside, some thread can move |
| SendPump.AliveIffNeverRefused | src/core/src/cnetwork_asio.cpp:152-232 | in every reached state with nobody inside and something queued, some continuation encodes the front buffer if and only if OnSend has never refused |
| SendPump.RefusalStallsForever | src/core/src/cnetwork_asio.cpp:181-219 | after a refusal, once no thread is past its look at the discard queue, nothing is encoded or written in any continuation |
| SendPump.RefusalReachesStall | src/core/src/cnetwork_asio.cpp:181-219 | a run of one thread: a refused buffer, one more call, and nobody is inside, nothing outstanding, a buffer queued |
| SendPump.OneWriteIffOneThread | src/core/src/cnetwork_asio.cpp:152-232 | in every run at most one write is outstanding, if and only if at most one thread uses the socket |
| SendPump.TwoWritesCanOverlap | src/core/src/cnetwork_asio.cpp:154-161 | for any two or more threads, a run that ends with two outstanding writes |
| SendPump.SerialRunsWriteOneAtATime | src/core/src/cnetwork_asio.cpp:152-232 | also with more threads, a run in which they never overlap inside has at most one write outstanding |
| SendPump.ReleasesInTimeIffOneThread | src/core/src/cnetwork_asio.cpp:204-211 | in every run only buffers of completed writes are released, if and only if at most one thread uses the socket |
| SendPump.LateWriteLosesItsBuffer | src/core/src/cnetwork_asio.cpp:204-211 | for any two or more threads, a run in which a buffer is released while its write is outstanding |
| SendPump.ReleasedAreFinished | src/core/src/cnetwork_asio.cpp:204-211 | with any threads, a run whose writes complete in the order of the queue releases no buffer early |
| SendPump.SerialRunsReleaseInTime | src/core/src/cnetwork_asio.cpp:204-211 | also with more threads, a run in which they never overlap inside releases no buffer early |
| FuzzyMatch.FuzzyMatchSimple | src/core/include/fts.h:60-68 | true exactly when a case-insensitive alignment exists |
| FuzzyMatch.GreedyComplete | src/core/include/fts.h:102-140 | if any alignment completes a prefix, the leftmost greedy one does |
| FuzzyMatch.ComputeScore | src/core/include/fts.h:142-200 | the scoring loop computes the sum of penalties and bonuses of the stored positions |
| FuzzyMatch.TrySkip | src/core/include/fts.h:119-130 | after trying to skip a letter, every completion is either ahead or no better than the best kept, if the budget held |
| FuzzyMatch.FuzzyMatchRecursive | src/core/include/fts.h:84-217 | with buffers of any length: a call within the budget succeeds exactly when the greedy alignment exists and fits, agrees with the search as a function, reports a valid alignment with its score, at least the greedy score, and unbeaten if the budget held; no copy reads past an array unless the buffer is longer than 256 and the greedy alignment loses |
| FuzzyMatch.FuzzyMatch | src/core/include/fts.h:70-81 | succeeds exactly when the plain test does (non-empty pattern that fits the buffer); reported positions are an alignment with that score, at least the greedy one; at most 1 + 9 times the pattern length calls; below the limit if and only if the unlimited search is, and then the score is the maximum over all alignments |
| FuzzyMatch.SearchCounts | src/core/include/fts.h:88-91 | the counter ends below the limit only if nothing was cut, and then it has counted every call of the unlimited search |
| FuzzyMatch.SkipsBounded | src/core/include/fts.h:102-137 | the unlimited search makes at most 2^k calls, k the number of characters of the string that occur in the pattern |
| FuzzyMeaning.SameLetterIff | src/core/include/fts.h:62 | two characters match if and only if they are equal or the two cases of one ASCII letter |
| FuzzyMeaning.PatternCaseDoesNotMatter | src/core/include/fts.h:104-137 | changing the case of any letters of the pattern changes neither what is found, nor the reported alignment, the calls or the score |
| FuzzyMeaning.StringCaseDoesNotMatter | src/core/include/fts.h:60-68 | changing the case of letters of the string does not change whether there is a match |
| FuzzyMeaning.ScoreCounts | src/core/include/fts.h:142-200 | a score as counts: unmatched characters, adjacent matches, humps, matches after a separator, a match on the first character |
| FuzzyBudget.BudgetMissesTheBest | src/core/include/fts.h:88-91 | on pattern "a" and string "xaaaaaaaaa_a" the search ends at ten calls with score 84 although an alignment scores 104 |
| FuzzyBudget.LongBufferIsUnsafe | src/core/include/fts.h:203-207 | on "a" and "xa_a" a skipped letter wins, so the final copy stays inside its source exactly for buffers of at most 256 bytes |
| FuzzyMatch.ShortStringsDoNotWrap | src/core/include/fts.h:133 | in strings of at most 256 characters the stored bytes are the positions |
| Party.RemovedMembers | src/rosecommon/include/partybase.h:86-94 | exactly one member goes, no duplicates appear, the leader stays a member and changes only if it left |
| Party.RemovedOrder | src/rosecommon/include/partybase.h:86-94 | the members left keep their order, and the first of them takes the place of a leader who left |
| Party.RemovalEffect | src/map/src/systems/partysystem.cpp:16-30 | the whole cascade: a party of two loses both members and components, a larger one only the leaver; no other party changes |
| Party.RemoveLeavesNobodyAlone | src/map/src/systems/partysystem.cpp:25 | if only the leaver could be alone before, nobody is alone in a party afterwards |
| Party.RemoveKeepsConsistent | src/map/src/systems/partysystem.cpp:16-30 | removal with its cascade keeps members and components in agreement |
| Party.AddKeepsConsistent | src/map/src/systems/partysystem.cpp:45-59 | adding a member, founding the party if need be, keeps agreement |
| Party.ChangeLeaderKeepsConsistent | src/map/src/systems/partysystem.cpp:61-71 | a new leader is always a member |
| Party.RequestKeepsConsistent | src/map/src/systems/partysystem.cpp:73-140 | every request, legal or not, keeps agreement |
| Party.ReplyKeepsConsistent | src/map/src/systems/partysystem.cpp:142-179 | every reply, asked for or not, keeps agreement |
| Party.UpdateLeavesNothingStale | src/map/src/systems/partysystem.cpp:34-43 | after update a component has a party or a pending request, and those that had keep everything |
| Party.EveryRunConsistent | src/map/src/systems/partysystem.cpp:16-179 | after any requests, replies, updates and entity removals: lists agree with components, no duplicates, leaders are members, every party pointed to has at least two members |
| PartyEffects.AcceptingJoins | src/map/src/systems/partysystem.cpp:165-174 | accepting a pending request makes the newcomer the last member of the asker's party, founded with the asker as leader if there was none; no other party or component changes |
| PartyEffects.OtherRepliesClear | src/map/src/systems/partysystem.cpp:142-179 | every other reply clears the request at most, and takes the component of a refused asker without a party |
| PartyEffects.TwoMakeAParty | src/map/src/systems/partysystem.cpp:73-179 | one asks, the other accepts: the two are a party led by the first |
| PartyEffects.AskingOnlyFlags | src/map/src/systems/partysystem.cpp:83-108 | Make and Join leave all parties as they are and set the request flag |
| PartyEffects.LeftDeparts | src/map/src/systems/partysystem.cpp:109-115 | Left takes exactly the leaver out of a larger party, or dissolves a pair |
| PartyEffects.KickDeparts | src/map/src/systems/partysystem.cpp:126-136 | Kick does the same to another member of the same party, and nothing to anyone else |
| PartyEffects.OwnerChanges | src/map/src/systems/partysystem.cpp:116-125 | the leader can make another member the leader; from anyone else the request changes nothing |
| PartyEffects.UpdateRemovesExactly | src/map/src/systems/partysystem.cpp:34-43 | update removes exactly the components without party and request of entities with a BasicInfo |
| Party.PartySystem.Remove | src/map/src/systems/partysystem.cpp:16-30 | the recursive callback ends and computes the cascade |
| Party.PartySystem.Tick | src/map/src/systems/partysystem.cpp:34-43 | the loop, in any order of entities, drops exactly the stale components |
| Party.PartySystem.Add | src/map/src/systems/partysystem.cpp:45-59 | in-place version of adding a member |
| Party.PartySystem.HandleRequest | src/map/src/systems/partysystem.cpp:73-140 | in-place version of a request |
| Party.PartySystem.HandleReply | src/map/src/systems/partysystem.cpp:142-179 | in-place version of a reply |
| SaveCharacter.WrittenReadsBack | src/rosecommon/include/item.h:82-114 | a committed item reads back with the same persistent fields |
| SaveCharacter.SavedCounts | src/map/src/entitysystem.cpp:203-240 | per slot: no row if it is empty or out of range, the rows it had if it had any, otherwise one; rows of other characters stay in place and order |
| SaveCharacter.SavedReads | src/map/src/entitysystem.cpp:203-240 | every row of the character reads back to the item in its slot |
| SaveCharacter.SavedColumns | src/rosecommon/include/item.h:82-114 | after saving, each of the six columns of each row holds the field of the item in its slot |
| SaveCharacter.AgreeingRowStays | src/map/src/entitysystem.cpp:213-221 | rows of other characters, and rows that agree with memory, stay as they are |
| SaveCharacter.SavedMirrors | src/map/src/entitysystem.cpp:203-240 | exactly one matching row per occupied slot and none elsewhere, if and only if no occupied slot had two rows before |
| SaveCharacter.TwoRowsStay | src/map/src/entitysystem.cpp:213-221 | two rows for one occupied slot both stay, so the table does not mirror the inventory |
| SaveCharacter.SavedLoads | src/map/src/entitysystem.cpp:158-240 | loading after saving throws if and only if some item in memory has no definition |
| SaveCharacter.SaveThenLoad | src/map/src/entitysystem.cpp:158-240 | whatever rows were there, loading after saving restores the persistent fields of an item if and only if it can be built, and leaves empty slots empty |
| SaveCharacter.UnbuildableIsLost | src/rosecommon/include/item.h:71-80 | an item whose script does not load comes back without type and id |
| SaveCharacter.InventoryTable.Diff | src/map/src/entitysystem.cpp:208-226 | the three lists are exactly the slots to delete, to update and to insert |
| SaveCharacter.InventoryTable.Save | src/map/src/entitysystem.cpp:203-240 | running the statements one by one gives the table the theorems speak of |
| SaveCharacter.InventoryTable.Delete | src/map/src/entitysystem.cpp:228 | removes exactly the rows of that character and slot |
| SaveCharacter.InventoryTable.Update | src/map/src/entitysystem.cpp:229-233 | rewrites exactly the rows of that character and slot |
| SaveCharacter.InventoryTable.LoadFromResult | src/rosecommon/include/components/inventory.h:37-44 | the loop over the rows, with items that are built, are not, or make it throw, makes the inventory that the round trip speaks of |
| InventorySystem.SwapConserves | src/map/src/systems/inventorysystem.cpp:32-41 | a swap with any slots, zero included, keeps the count of every item |
| InventorySystem.DropConserves | src/map/src/systems/inventorysystem.cpp:73-98 | any drop, of any quantity from any slot, keeps held plus dropped |
| InventorySystem.AddCounts | src/map/src/systems/inventorysystem.cpp:100-111 | raises the total by the item's count, or changes nothing when the bag is full |
| InventorySystem.MovesConserve | src/map/src/systems/inventorysystem.cpp:24-130 | over every run of swaps, equips and drops with any script answers, the total of each item is constant |
| InventoryEffects.FirstEmptySlot | src/map/src/systems/inventorysystem.cpp:24-30 | the slot found is the first empty one from 12 on, and 0 if and only if there is none |
| InventoryEffects.SwapExchanges | src/map/src/systems/inventorysystem.cpp:32-41 | the two slots exchange what they hold, a 0 standing for the first empty one, and all others keep it |
| InventoryEffects.EquipSwaps | src/map/src/systems/inventorysystem.cpp:43-71 | swaps if and only if the destination is an equip slot and both items present agree |
| InventoryEffects.DropSplits | src/map/src/systems/inventorysystem.cpp:73-98 | the lesser of what is asked for and what is held goes to the ground, the rest stays in the slot, no other slot changes |
| InventoryEffects.AddLandsFirst | src/map/src/systems/inventorysystem.cpp:100-111 | an added item lands in the first empty bag slot |
| InventorySystem.Holder.FindNextEmptySlot | src/map/src/systems/inventorysystem.cpp:24-30 | the first empty bag slot, or 0 exactly when the bag is full |
| InventorySystem.Holder.SwapItems | src/map/src/systems/inventorysystem.cpp:32-41 | in-place swap, with the slots it resolved |
| InventorySystem.Holder.ProcessEquip | src/map/src/systems/inventorysystem.cpp:43-71 | equips only with the consent of both items present, and reads outside the array exactly when the destination is good and the source slot is not in range |
| InventorySystem.Holder.DropItem | src/map/src/systems/inventorysystem.cpp:73-98 | in-place drop |
| InventorySystem.Holder.AddItem | src/map/src/systems/inventorysystem.cpp:100-111 | succeeds exactly when a bag slot is empty |
| InventorySystem.Holder.RemoveItem | src/map/src/systems/inventorysystem.cpp:113-130 | returns the slot's item and empties that slot only |
| WorkerPool.NextInv | src/core/include/threadpool.h:57-119 | every step keeps the account of tasks, the draining rule and the absence of lost wake-ups |
| WorkerPool.ShutdownRunsEverything | src/core/include/threadpool.h:57-119 | in every interleaving tasks are taken once and first in first out, and when all workers have left every accepted task has run |
| WorkerPool.AcceptedAreSubmitted | src/core/include/threadpool.h:86-107 | in every run exactly the tasks handed over before stop are accepted, in that order |
| WorkerPool.NeverStuck | src/core/include/threadpool.h:64-107 | while work is queued, a worker or a notifier can act |
| WorkerPool.StoppedStepsShrink | src/core/include/threadpool.h:64-80 | after stop each step of a worker lowers a measure |
| WorkerPool.ShutdownEnds | src/core/include/threadpool.h:109-119 | after the destructor's notification, in every continuation workers take at most as many steps as the work left allows, none can move if and only if all have left, and then every accepted task has run |
| WorkerPool.ShutdownIsBounded | src/core/include/threadpool.h:64-80 | each worker step uses up work, and no other step adds any |
| WorkerPool.ShutdownCanEnd | src/core/include/threadpool.h:64-119 | from any such state worker steps alone let the last worker leave |
| RosePacket.WriteAppends | src/rosecommon/include/crosepacket.h:198-207 | a write appends its little-endian bytes or, when it would reach the last byte, changes nothing; offset, size and size field keep agreeing |
| RosePacket.LittleWords | src/rosecommon/include/crosepacket.h:183-187 | the bytes of numbers of one, two and four bytes, lowest first |
| RosePacket.WriteAllAppends | src/rosecommon/include/crosepacket.h:198-207 | any list of fields that fits is appended in order |
| RosePacket.WriteAllKeeps | src/rosecommon/include/crosepacket.h:198-207 | any list at all, fitting or not, leaves earlier content and the size invariant intact |
| RosePacket.FreshIsValid | src/rosecommon/include/crosepacket.h:55-63 | the constructor gives size 6 with type and CRC, over any buffer contents |
| RosePacket.ValuesReadBack | src/rosecommon/include/crosepacket.h:150-196 | for every schema, nested counted lists included, reading returns the written values and the end offset |
| RosePacket.PacketRoundTrip | src/rosecommon/include/crosepacket.h:55-207 | every packet that fits, with no zero in a string and no list of 256 rows, reads back field for field from any receiving buffer, with its length as size |
| RosePacket.ReadsBackIffClean | src/rosecommon/include/crosepacket.h:130-174 | a packet that fits is read back if and only if its strings hold no zero and its lists have fewer than 256 rows |
| RosePacket.ZeroIsLost | src/rosecommon/include/crosepacket.h:130-135 | a one-character string that is a zero fits and does not read back |
| RosePacket.ReadIsClean | src/rosecommon/include/crosepacket.h:150-196 | whatever the bytes, what is read has no zeros in strings and no list of 256 rows |
| RosePacket.CRosePacket.FromBytes | src/rosecommon/include/crosepacket.h:65-68 | copies as many bytes as the size field says, reads size and type, and stands at the first field |
| RosePacket.EveryRecipientReads | src/rosecommon/include/crosepacket.h:82-87 | however often a broadcast packs the same packet, each copy decodes to the same values, carries its own length and stays below the capacity |
| RosePacket.CRosePacket.WriteNext | src/rosecommon/include/crosepacket.h:198-207 | in-place write |
| RosePacket.CRosePacket.ReadNext | src/rosecommon/include/crosepacket.h:189-196 | in-place read; zero and no progress at the end |
| RosePacket.CRosePacket.WriteString | src/rosecommon/include/crosepacket.h:130-135 | the characters and a zero, each a bounded write |
| RosePacket.CRosePacket.ReadString | src/rosecommon/include/crosepacket.h:170-174 | ends inside the buffer on any bytes, at the first zero |
| ListPackets.PackChannelList | src/rosecommon/src/packets/srv_channellistreply.cpp:44-53 | writes exactly the values of its schema |
| ListPackets.OneChannelBytes | src/rosecommon/src/packets/srv_channellistreply.cpp:44-53 | the bytes of a list of one channel, field by field |
| ListPackets.ParseChannelList | src/rosecommon/src/packets/srv_channellistreply.cpp:8-22 | refuses a packet of another type, else reads what the schema describes, from any bytes |
| ListPackets.ChannelListRoundTrip | src/rosecommon/src/packets/srv_channellistreply.cpp:8-53 | what is parsed from a packed channel list that fits is that list if and only if it has fewer than 256 channels and no name holds a zero |
| ListPackets.ManyChannelsAreLost | src/rosecommon/src/packets/srv_channellistreply.cpp:44-53 | 256 nameless channels make a valid packet of 1547 bytes that does not read back |
| ListPackets.PackCharacterList | src/rosecommon/src/packets/srv_characterlistreply.cpp:105-118 | writes exactly the values of its schema, items included |
| ListPackets.OneCharacter | src/rosecommon/src/packets/srv_characterlistreply.cpp:105-118 | the bytes of one character, field by field |
| ListPackets.ParseCharacterList | src/rosecommon/src/packets/srv_characterlistreply.cpp:44-59 | refuses a packet of another type, else reads what the schema describes, from any bytes |
| ListPackets.CharacterListRoundTrip | src/rosecommon/src/packets/srv_characterlistreply.cpp:44-118 | what is parsed from a packed character list that fits is that list, items included, if and only if no name holds a zero; 256 characters never fit |
| EndToEnd.DeliveredReads | src/rosecommon/src/crosesocket.cpp:99-118 | a delivered packet reads as the message it was packed from, although bytes 4 and 5 have changed |
| EndToEnd.MessagesArrive | src/core/src/cnetwork_asio.cpp:234-266 | any messages with types below 0x800, packed, encoded and delivered in any reads, are read by the receiver one for one and in order, all of them once the bytes are used up |
| EntityIds.GivenIsNew | src/map/src/id_manager.cpp:3-8 | with fewer than 65536 ids outstanding the id handed out is not one of them |
| EntityIds.OfferIsNewIff | src/map/src/id_manager.cpp:3-8 | the id handed out is not in use if and only if fewer than 65536 are outstanding |
| EntityIds.DistinctIffFewEnough | src/map/src/entitysystem.cpp:30-309 | no run repeats a live id if and only if ids are only taken while fewer than 65536 are outstanding |
| EntityIds.OneTooMany | src/map/src/entitysystem.cpp:30-40 | a run of 65537 built items ends with two live entities of id 0 |
| EntityIds.FoundIffNotZero | src/map/src/entitysystem.cpp:42-54 | in every run a live named entity is found by its id if and only if that id is not 0 |
| EntityIds.FirstIsNotFound | src/map/src/entitysystem.cpp:42-48 | the first character loaded is alive with id 0 and in neither map |
| EntityIds.HandOutsMatchReleases | src/map/src/entitysystem.cpp:56-99 | over every run, each id was handed out as often as released, plus one exactly while it is out |
| EntityIds.NextKeepsInv | src/map/src/entitysystem.cpp:56-178 | loading, building, creating, destroying and bulk destroying keep live ids distinct and the three maps truthful |
| EntityIds.IdsDistinctInEveryRun | src/map/src/entitysystem.cpp:30-309 | in every run with fewer than 65536 ids outstanding: live ids pairwise distinct, and any live entity found by id, by name or by item id has that id or name |
| EntityIds.ReleasesOnlyWhatIsOut | src/map/src/entitysystem.cpp:74-99 | the id a delete command gives back is out before and free after; commands without a release leave the allocator alone |
| EntityEffects.LoadIsFound | src/map/src/entitysystem.cpp:117-178 | a loaded character is alive with its id and, unless that is 0, found by id and by name |
| EntityEffects.ItemIsFound | src/map/src/entitysystem.cpp:30-40 | a built item is alive with its id and found among the items only |
| EntityEffects.RequestedIsCreated | src/map/src/entitysystem.cpp:243-289 | a requested entity is there at once and gets the id on offer from its create command |
| EntityEffects.DestroyOnce | src/map/src/entitysystem.cpp:74-78 | asking twice is asking once, and only what is on the map is queued |
| EntityEffects.DestroyedIsGone | src/map/src/entitysystem.cpp:79-98 | after its command the entity is gone; unless it is an Npc its id is free and neither id nor name is in a map |
| EntityEffects.BulkIsGone | src/map/src/entitysystem.cpp:297-309 | all entities of a bulk command go and no id is given back |
| EntityIds.EntitySystem.RunCreateCommands | src/map/src/entitysystem.cpp:58-61 | runs every create command as a step of the state machine and empties the list; with ids left for them it keeps the invariant |
| EntityIds.EntitySystem.RunDeleteCommands | src/map/src/entitysystem.cpp:68-71 | runs every delete command as a step of the state machine, empties the list and keeps the invariant |
| EntityIds.EntitySystem.LoadCharacter | src/map/src/entitysystem.cpp:117-178 | a stored character takes an id on offer at once and is registered; a missing one leaves nothing behind |
| EntityIds.EntitySystem.BuildItemEntity | src/map/src/entitysystem.cpp:30-40 | takes an id on offer at once and enters the item map |
| EntityIds.EntitySystem.RegisterEntity | src/map/src/entitysystem.cpp:42-48 | enters both maps unless the name is empty or the id is 0 |
| EntityIds.EntitySystem.RequestCreate | src/map/src/entitysystem.cpp:243-289 | the entity exists at once, its id is left to the next update |
| EntityIds.EntitySystem.Destroy | src/map/src/entitysystem.cpp:74-99 | queues one command per stay on the map |
| EntityIds.EntitySystem.BulkDestroy | src/map/src/entitysystem.cpp:297-309 | queues one command for all |
| EntityIds.EntitySystem.ExecuteDelete | src/map/src/entitysystem.cpp:79-97 | unregisters and releases unless the entity is an Npc, then destroys |
| EntityIds.Allocator.GetFreeId | src/map/src/id_manager.cpp:3-8 | any released id if there is one, else the 16-bit counter, which wraps |
| EntityIds.Allocator.ReleaseId | src/map/src/id_manager.cpp:10-12 | the id joins the free set |

## Left out

- asio, MySQL and sqlpp, Lua, logging, configuration, crash reports and the command line: completions, rows, script answers and handles are parameters.
- ISC framing and the node relay: only the client path is framed.
- SrvLoginReply: its server list has no written terminator, so it has no round trip.
- The movement grid, SystemManager::dispatch, GM commands: the code keeps no strong invariant there. What they do to entities between the two halves of EntitySystem::update is a sequence of other steps.
- Notification packets sent by the party and inventory systems.
- Core::fuzzy_match (filter and sort), getters, flat packets, item bit packing, addCharacter and addEquipItem: easy members only.
- Sockets that become inactive in mid-send: the send pump is modelled on an active socket.
- Critical sections of the thread pool are single steps, since its one mutex guards all shared state.
- Cipher.CodecRoundTrip: types of 0x800 and above and sizes that differ from the length are not covered, since the wire fields have 11 bits.
- PacketCodec.PacketCodec.DecodePacketBody: requires that the announced length lies inside the buffer, because beyond it the code writes outside the array; DecodableIffNoWrap says when that is so.
- Framing.ClientSocket.OnReceived: has the same requirement, for the same reason.
- Framing.ClientSocket.OnReadCompleted: excludes exactly the headers on which decoding leaves the buffer (AnyBytesStayInBounds).
- InventorySystem.Holder.ProcessEquip: says nothing of the result when a slot outside the array was read.
- FuzzyMatch.FuzzyMatch: says nothing of the reported positions when a copy read past the end of an array; letters fold as in ASCII.
- EntityIds.EntitySystem.ExecuteDelete: leaves out the saving of the character, which SaveCharacter models on its own.
- RosePacket.CRosePacket.FromBytes: requires that the size field does not exceed the bytes given or the buffer, because the code copies that many unchecked.
- SaveCharacter.SaveThenLoad: the fields that no column stores (durability, life, created, appraised, stackable) are not restored.
- EntityIds.NextKeepsInv: entities that bulk destruction or an Npc takes away never give their id back, as in the code.
