# Verification model of the network device receiver

This Dafny project models the parts of the receiver whose correctness is hardest to see from the code, and proves what
they promise. `dafny verify dfyconfig.toml` checks all of it.

* **The SNMP fetch engine** (`Oid`, `Malformed`, `Pdu`, `Wire`, `Sizing`, `Agent`, `Scalars`, `Losses`, `Rows`, `Walk`,
  `Columns`, `Fetch`, `OneOctet`, `Throughput`, `Recovery`, `Pruning`). A device implements some object types and holds
  a finite set of instances of them. Its answers follow sections 4.2.1 to 4.2.3 of RFC 3416 (v2c: noSuchInstance for an
  implemented object without the instance, noSuchObject for one it does not implement) or sections 4.1.2 and 4.1.3 of
  RFC 1157 (v1: either fails the request); around those answers the environment may lose or refuse any request. A
  session is a function from the number of packets sent so far and the request to the response, so every result holds
  for every device, however it changes its mind about failing. Each loop is a state, a reaction to one response and a
  run of any number of turns; the procedures are proved to end in exactly the state the run ends in.
* **Profiles** (`Profiles`, `Legacy`, `Inheritance`, `Store`, `Patterns`, `Matching`). Inheritance over arbitrary
  graphs, merge precedence, normalisation, the resolve cache over documents that share slices and maps, and the choice
  of a profile by sysObjectID.
* **Scheduling and discovery** (`PollLoop`, `DueTimes`, `Capacity`, `Registry`, `Cidr`, `Scan`). The poll scheduler and
  the subnet scan are protocols whose atomic steps interleave in every possible order; the registry is a run of
  operations under its lock.
* **The metric pool** (`Streams`, `Pool`). Stream identity, priority and start times over any series of calls and polls.

`Arithmetic`, `Collections`, `Order`, `Sorting` and `Wrappers` hold what several of these need.

Reading the results:

* *Proper* instances have canonical OIDs: arcs are decimal, below 2^64 and without leading zeros. *Walkable* columns are
  canonical and do not nest. *Honest* sessions answer correctly or refuse; sessions that *serve* refuse only requests
  for more than one OID, or GETBULK, and are never cancelled. A device *denies* an OID it has no instance of and, over
  v2c, does not implement: that is what makes the poller stop asking.
* A correct GETBULK answer has at least one full repetition, if one was asked for, and continues no traversal more often
  than asked. Section 4.2.3 of RFC 3416 also lets an agent cut it within the first one; `Walk.SilentColumnIsEnded` says
  what becomes of a column it then does not mention, and `Columns.CellsAreTrue` covers such agents too.
* A row, or a scalar, is *readable* when its value decodes. Undecodable rows move the walk without being stored and
  without counting against the cap, as in the code.
* The order on OIDs is transitive for arcs that parse, but not in general, contrary to what the comment in
  `internal/snmp/oid.go:25-28` may suggest; `Malformed.MalformedArcClosesCycle` says which malformed arcs break it.
* An SNMPv1 agent names the failing OID in one octet. The claim that exactly the absent OID is dropped, or the exhausted
  column ended, therefore holds if and only if the batch or the request has at most 255 OIDs
  (`OneOctet.V1ScalarsExactIff`, `OneOctet.V1ColumnsExactIff`); `OneOctet.TwoHundredFiftySixFail` is an input for which
  it fails.
* SNMPv1 cannot tell an absent instance from an unimplemented object, so over v1 an OID that is absent in one poll is
  pruned for good (`Pruning.PrunedExactlyWhenDenied`); `Pruning.PrunedPollStoresSame` says when that loses a value.
* An OID requested both as a scalar and as a column is pruned from both lists; `Pruning.ColumnsSurvivePruning` says
  exactly when the columns are safe.
* A base named with both endings, such as `_base.yml.yaml`, is `_base` too, since the code strips one ending after the
  other (`Inheritance.ExtendsIff`).
* A sysObjectID with space before its leading dot keeps the dot, and so is matched as another text
  (`Matching.CleanIDOf`).
* A profile that lists one pattern twice competes with itself and makes the pattern ambiguous (`Matching.AmbiguousIff`).
* An unknown instrument leaves an empty metric of the requested name behind, so names may repeat in the output;
  `Pool.NamesDistinctIff` says exactly when they do not. Stream keys collide for the texts that `Streams` lists.

## Model

| member | source | states |
|---|---|---|
| Fetch.PollIsExact | internal/snmp/fetch.go:68-85 | A device that serves the poll: no error; the stored scalars are exactly its readable values for the requested OIDs; the reported ones are exactly those it does not implement (v2c) or has no instance of (v1), as often as requested, and in request order unless a v1 agent names them in another; every column holds exactly its first rows up to the configured cap (10000 if none is set), the truncated columns being those with more, once each. |
| Fetch.PollIsSound | internal/snmp/fetch.go:68-85 | Around correct answers any request may be lost, refused or cancelled: every stored scalar is a true one, every reported OID is one the device denies, and every requested column holds a prefix of its true rows. |
| Fetch.HonestIsBounded | internal/snmp/fetch.go:182-249 | A device whose answers are correct or refusals meets the condition under which the walk is known to end. |
| Fetch.Fetch | internal/snmp/fetch.go:68-85 | The poll as a procedure leaves the store and the report that the two loops' end states define. |
| Columns.WalkIsExact | internal/snmp/fetch.go:169-250 | Walk exactness: the result depends on the device's rows, the columns and the cap alone, not on GETBULK or GETNEXT, batch size, size limits of at least one OID, SNMP version, or the number of repetitions, as long as one is asked for: an agent gives no round that is not asked for; for v1 under the condition of `OneOctet.V1ColumnsExactIff`. |
| Columns.WalkIsSound | internal/snmp/fetch.go:182-249 | In every reachable state, under any interleaving of transport errors, error statuses and cancellation, every column holds a prefix of its rows in OID order; a loop that ends without an error has completed every column. |
| Columns.RunKeepsWalk | internal/snmp/fetch.go:182-249 | The frontier invariant holds in every reachable state: a walking column has stored exactly its readable rows up to its position, an ended one its first rows up to the cap. |
| Columns.StepKeepsWalk | internal/snmp/fetch.go:182-248 | One turn of the loop, whatever the response, keeps that invariant. |
| Columns.NoSuchNameKeepsWalk | internal/snmp/fetch.go:222-235 | An SNMPv1 noSuchName answer ends a column only when that column has no further row. |
| Columns.StoppedMeansError | internal/snmp/fetch.go:205-239 | The loop stops with columns unfinished only on an error, and records one. |
| Columns.StoppedForAReason | internal/snmp/fetch.go:183-239 | That error is the cancellation, or says what was wrong with the response that stopped it. |
| Columns.WalkPduBound | internal/snmp/fetch.go:182-248 | Against any responses whose names come from a finite universe the loop sends at most N + N/10 + 2*log2(max) + 2 packets (log2(max) + 1 without GETBULK), N counting columns and OIDs ahead of them. |
| Columns.WalkEnds | internal/snmp/fetch.go:182-248 | The loop is over one turn after that bound. |
| Columns.UnitsOfDisjointColumns | internal/snmp/fetch.go:263-308 | For columns that do not nest, N is the number of columns plus the number of distinct universe OIDs below them. |
| Columns.ConsumedPays | internal/snmp/fetch.go:256-308 | Every response that is consumed uses up at least one unit of N, or ends the whole chunk. |
| Columns.VariablePays | internal/snmp/fetch.go:263-299 | A variable that is accepted moves its column strictly forward in the universe, row cap or not. |
| Columns.RunSpendsNothing | internal/snmp/fetch.go:182-248 | Packets sent plus what the potential still allows never grow over a run. |
| Columns.HonestIsFinite | internal/snmp/fetch.go:182-249 | The names of a correct device's answers lie in a finite universe, so the bound applies to it. |
| Columns.CellsAreTrue | internal/snmp/fetch.go:256-308 | Every cell (c, i) that is ever stored is the device's value at c.i, for any canonical columns, nested ones included, any batch size, cut answers and all failures, as long as no variable lies. |
| Columns.HonestIsTruthful | internal/snmp/fetch.go:182-249 | Correct answers do not lie, so that result covers every correct device. |
| Throughput.WalkTogether | internal/snmp/fetch.go:193-203 | Against a device that answers everything, columns that fit one batch take no more packets than the longest of them needs alone: its rows divided by the configured repetitions (1 by GETNEXT), rounded up, and one more, however many columns there are. |
| Throughput.PacketAdvances | internal/snmp/fetch.go:256-308 | A packet with all rounds brings each of its columns to its end or that many rows further, other columns' overshoot included. |
| Throughput.IdlePacket | internal/snmp/fetch.go:263-299 | A packet makes progress only if one of its columns had a row to bring. |
| Throughput.ScalarPackets | internal/snmp/fetch.go:94-162 | The scalars of a device that answers everything take exactly as many packets as there are full batches. |
| Throughput.PollPackets | internal/snmp/fetch.go:68-85 | A whole poll in terms of its settings: the scalar batches and the packets of the longest column, zero settings counting as 10. |
| Recovery.WalkBatchRecovers | internal/snmp/fetch.go:247 | While everything is answered, the walk's batch is that of as many successes in a row. |
| Recovery.ScalarBatchRecovers | internal/snmp/fetch.go:160 | The scalar batch likewise. |
| Recovery.WalkBatchFollows | internal/snmp/fetch.go:205-247 | Over any run up to the fallback the walk's batch is what the outcomes of its packets, answered, declined or otherwise, make of it in turn; GETBULK, once given up, is not taken up again. |
| Recovery.ScalarBatchFollows | internal/snmp/fetch.go:102-160 | So is the scalar batch over any run: noSuchName and other error statuses leave it as it is. |
| Recovery.WalkBatchHalves | internal/snmp/fetch.go:205-208 | Each refused GETBULK halves the batch and costs nothing else, while it can be halved. |
| Recovery.ScalarBatchHalves | internal/snmp/fetch.go:104-118 | So does each refused GET. |
| Recovery.FallsBackToNext | internal/snmp/fetch.go:205-217 | After log2(batch) + 1 refused GETBULKs the walk starts over by GETNEXT with full batches and nothing lost. |
| Recovery.WalkWithoutBulk | internal/snmp/fetch.go:182-249 | So a device without GETBULK costs log2(batch) + 1 packets more than one that is asked by GETNEXT from the start. |
| OneOctet.V1ColumnsExactIff | internal/snmp/fetch.go:222-235 | Every serving SNMPv1 device's columns are read exactly if and only if the batch, or the number of different columns, is at most 255. |
| OneOctet.EmptyDeviceFails | internal/snmp/fetch.go:222-235 | Beyond that, one packet to an agent without instances is enough: it names the 256th column, its index wraps to 0 and the walk is given up. |
| OneOctet.TwoHundredFiftySixFail | internal/snmp/fetch.go:124-136 | A concrete list of 256 OIDs with batches of 256 for which one packet fails, as scalars and as columns. |
| Columns.FetchColumns | internal/snmp/fetch.go:169-250 | The loop as a procedure ends in exactly the state that iterating the step function gives. |
| Columns.Prepare | internal/snmp/fetch.go:170-176 | Every canonical column starts at its own root with no rows. |
| Columns.RootsOfSpellings | internal/snmp/fetch.go:171-175 | Columns written with surrounding space or a leading dot are walked under their canonical forms. |
| Columns.Send | internal/snmp/fetch.go:187-203 | The request carries the positions of the first `size` active columns in text order, by GETBULK or GETNEXT. |
| Columns.ChunkIsFirst | internal/snmp/fetch.go:187-189 | The chunk is in text order, and every active column left out of a full batch sorts after it. |
| Columns.Receive | internal/snmp/fetch.go:205-247 | One response changes table, store, report, batch and mode as the step function says, error branches included. |
| Columns.Absorb | internal/snmp/fetch.go:241-246 | A response without progress ends its whole chunk. |
| Columns.Consume | internal/snmp/fetch.go:256-308 | The loop over the variables equals their left-to-right application followed by ending the unanswered columns. |
| Columns.Accept | internal/snmp/fetch.go:263-299 | One variable changes positions, rows, truncation and the two flags as its application to the values does, each early exit included. |
| Columns.EndUnanswered | internal/snmp/fetch.go:301-306 | Exactly the chunk's unanswered columns are ended. |
| Columns.EndAll | internal/snmp/fetch.go:243-245 | Exactly the chunk's columns are ended. |
| Columns.MatchColumn | internal/snmp/fetch.go:313-324 | The matching loop finds the longest requested column above the OID and the index below it. |
| Walk.ConsumedIsOk | internal/snmp/fetch.go:256-308 | Applying a correct answer in repetition-major order, overshoot included, keeps every column exact and ends only complete columns; when nothing progressed all of the chunk is complete. |
| Walk.NextMetRow | internal/snmp/fetch.go:263-299 | GETBULK frontier: a row that any column's traversal meets beyond a walking column's position is that column's immediate next row. |
| Walk.MetRowKeepsFrontier | internal/snmp/fetch.go:272-298 | Accepting or skipping a met row, own or overshoot, keeps the frontier invariant. |
| Walk.VariablesKeepFrontier | internal/snmp/fetch.go:263-299 | All variables of a packet together keep it. |
| Walk.AcceptedColumnIsOk | internal/snmp/fetch.go:288-298 | Storing the next row, skipping an undecodable one, or truncating at the cap leaves the column exact. |
| Walk.EndIsOk | internal/snmp/fetch.go:301-306 | Ending a column without further rows leaves it complete. |
| Walk.UnmovedIsAtEnd | internal/snmp/fetch.go:301-306 | A traversal that brought nothing of its own column shows that the column is at its end. |
| Walk.SilentColumnIsEnded | internal/snmp/fetch.go:301-306 | A column that an answer, cut within its first repetition, does not mention is ended with the rows it has, and is complete if and only if it had no other. |
| Walk.PacketEndsColumnIff | internal/snmp/fetch.go:263-306 | Whatever the device sends: an error-free packet ends a column if and only if it does not mention it or brings it to the cap; an echo is a mention. |
| Walk.LongestMatchIsLongest | internal/snmp/fetch.go:313-324 | The match is a column above the OID, and no longer one is. |
| Walk.MatchIsTheColumn | internal/snmp/fetch.go:266-268 | With columns that do not nest, an OID is attributed to the one column above it. |
| Rows.FirstRowsAreInitial | internal/snmp/fetch.go:288-296 | The first rows up to the cap are downward closed in OID order. |
| Rows.FirstRowsCount | internal/snmp/fetch.go:290-294 | They are as many as the column has, or the cap, whichever is less. |
| Rows.FullColumn | internal/snmp/fetch.go:290-294 | At a further decodable row of a full column, the rows held are the first `cap` and more exist. |
| Rows.WholeColumn | internal/snmp/fetch.go:301-306 | At the end of a column the rows held are all of it. |
| Rows.RowMapSize | internal/snmp/fetch.go:289-290 | Distinct rows have distinct indexes, so the store's size counts rows. |
| Scalars.ScalarsAreExact | internal/snmp/fetch.go:89-164 | Scalar equivalence: the stored values and the reported OIDs (v2c: not implemented, v1: no instance) are functions of device and request, whatever the batch size, version or size limit of at least one OID; for v1 under the condition of `OneOctet.V1ScalarsExactIff`. |
| Scalars.ScalarsAreSound | internal/snmp/fetch.go:94-162 | In every reachable state, failures included, stored values are true and reported OIDs denied by the device; a loop that ends without an error is exact. |
| Scalars.RunIsSound | internal/snmp/fetch.go:94-162 | After any number of turns: what is stored, reported, still to be asked and given up accounts for the whole request, with one error, telling why, for each request given up and for the cancellation. |
| Scalars.OnlyTheGivenUpIsLost | internal/snmp/fetch.go:94-164 | Over every honest session, cancelled or not: each requested OID is stored if readable and reported if denied, as often as requested, unless it is still to be asked or was in a request given up, and the errors are those requests' reasons. |
| Losses.OthersAreRead | internal/snmp/fetch.go:104-122 | If single GETs outside a set of OIDs are answered, everything outside the set is read, however requests for several OIDs or for the set are lost. |
| Losses.LossesAreTheirOwn | internal/snmp/fetch.go:104-113 | If exactly the requests naming OIDs of a set time out, the rest of the list is read exactly as if they had not been asked for, and there is one transport error for each time one was. |
| Scalars.StepIsSound | internal/snmp/fetch.go:94-162 | One turn of the loop keeps that account, in every branch. |
| Scalars.RecordIsExact | internal/snmp/fetch.go:145-159 | A correct answer's variables yield exactly the chunk's values and the OIDs of it that are not implemented, noSuchInstance being neither. |
| Scalars.ScalarPduBound | internal/snmp/fetch.go:94-162 | For any response script at all at most n + n/10 + log2(max) packets are sent. |
| Scalars.ScalarLoopEnds | internal/snmp/fetch.go:94-162 | The loop is over one turn after that bound. |
| Scalars.RunSpendsNothing | internal/snmp/fetch.go:94-162 | Packets sent plus what the potential still allows never grow over a run. |
| OneOctet.V1ScalarsExactIff | internal/snmp/fetch.go:124-136 | Different scalars are read exactly from every serving SNMPv1 device if and only if the batch, or the number of OIDs, is at most 255. |
| OneOctet.TheWrappedIndex | internal/snmp/fetch.go:124-136 | Beyond that the first packet to a device that lacks only the 256th OID fails: its error index wraps to 0 and the chunk is given up. |
| Scalars.FetchScalars | internal/snmp/fetch.go:89-164 | The loop as a procedure ends in exactly the state that iterating the step function gives. |
| Scalars.Receive | internal/snmp/fetch.go:99-162 | One response changes store, report, pending list and batch as the step function says, error branches included. |
| Scalars.RecordVariables | internal/snmp/fetch.go:145-159 | The recording loop equals the left-to-right fold of single variables. |
| Sizing.BatchSizer.constructor | internal/snmp/fetch.go:347-352 | A new sizer starts at its limit, at least one. |
| Sizing.BatchSizer.Shrink | internal/snmp/fetch.go:357-364 | Halves down to one, clears the streak, and says whether it could. |
| Sizing.RefusalsHalve | internal/snmp/fetch.go:357-364 | n refusals divide the batch by 2^n, down to one; it can shrink again if and only if more than one is left. |
| Sizing.BatchSizer.Success | internal/snmp/fetch.go:366-375 | Doubles up to the limit on the tenth success in a row below it. |
| Sizing.SuccessesRestore | internal/snmp/fetch.go:366-375 | Ten successes in a row double the batch up to the limit, so ten for each halving restore it. |
| Sizing.BatchSizer.Reset | internal/snmp/fetch.go:377-380 | Back to the limit, streak cleared. |
| Wire.PrefixedNames | internal/snmp/fetch.go:327-333 | The wire form names the same canonical OIDs, in order. |
| Pdu.DecodedIs | internal/snmp/valuestore.go:167-235 | A variable is readable if and only if it stands for a value and that value fits its tag; the tag is kept, and a number has the variable's value. |
| Pdu.BigEndianHead | internal/snmp/valuestore.go:225-229 | Eight octets are a number in base 256, the first octet counting most. |
| Pdu.BigEndianInjective | internal/snmp/valuestore.go:225-229 | Octets of one length are determined by their number. |
| Oid.CompareOIDsIsArcOrder | internal/snmp/oid.go:15-39 | On well-formed OIDs the comparison has the sign of the lexicographic comparison of the parsed arcs. |
| Oid.OrderIsTotal | internal/snmp/oid.go:15-42 | On canonical OIDs it is reflexive, antisymmetric up to equality, and any two are ordered. |
| Oid.WellFormedOrderIsTransitive | internal/snmp/oid.go:15-42 | Among OIDs whose arcs parse, leading zeros included, it is transitive, strictly where one step is strict. |
| Oid.MalformedArcsCycle | internal/snmp/oid.go:25-29 | With a malformed arc it is not: three concrete OIDs each sort before the next, in a circle. |
| Malformed.MalformedArcClosesCycle | internal/snmp/oid.go:25-29 | A malformed arc lies on a cycle with two numbers if and only if it sorts, as text, after 10 and before nineteen nines. |
| Oid.ArcsInjective | internal/snmp/oid.go:16-17 | Canonical OIDs with the same arcs are the same text. |
| Oid.CanonicalOIDFixes | internal/snmp/valuestore.go:150-152 | Trimming leaves a canonical OID alone and removes one leading dot. |
| Oid.TrimmedIsCanonical | internal/snmp/valuestore.go:150-152 | Nor does surrounding space count, with a leading dot or without. |
| Oid.TrimSpaceIff | internal/snmp/valuestore.go:151 | Trimming leaves what remains when all surrounding space is taken away, and only that. |
| Oid.RowIndexIsArcPrefix | internal/snmp/valuestore.go:156-162 | The string-prefix test holds exactly on proper arc prefix. |
| Oid.RowIndexSplits | internal/snmp/valuestore.go:156-162 | Column, dot and index give back the OID. |
| Oid.RowIndexInjective | internal/snmp/valuestore.go:156-162 | Rows of one column with the same index are the same OID. |
| Oid.SubtreeIsInterval | internal/snmp/oid.go:15-39 | Between two OIDs of a subtree lie only OIDs of that subtree. |
| Oid.RootBeforeRows | internal/snmp/oid.go:37-38 | A column sorts before everything below it. |
| Oid.SharedRowMeansNested | internal/snmp/fetch.go:313-324 | Two columns above one OID are the same or one is above the other. |
| Agent.Fake.Set | internal/snmptest/fake.go:53-59 | The stored objects become the old ones with this one added under its canonical OID. |
| Agent.Fake.Next | internal/snmptest/fake.go:160-167 | The scan of the sorted OIDs finds the least stored OID after the given one, or that there is none. |
| Agent.Fake.AnswerGet | internal/snmptest/fake.go:137-156 | The answer is a correct GET answer of the stored objects, v1 or v2c. |
| Agent.Fake.AnswerGetNext | internal/snmptest/fake.go:178-210 | The answer is a correct GETNEXT answer; v1 fails at the first OID without a successor and echoes the request. |
| Agent.Fake.Continue | internal/snmptest/fake.go:240-250 | One cursor's next variable: its successor, or endOfMibView at the cursor. |
| Agent.Fake.AnswerGetBulk | internal/snmptest/fake.go:223-253 | The repetition-major loop gives a correct GETBULK answer: every traversal is continued as often as asked (or as the fake's own limit allows) or to the end of the MIB, and never more often. |
| Agent.NoRepetitionNoVariable | internal/snmptest/fake.go:223-253 | Asked for no repetition, an agent answers with no variable. |
| Agent.ServingSessionExists | internal/snmptest/fake.go:131-254 | For every proper set of instances and every device there is a session that serves it, so the exactness results are not vacuous. |
| Agent.SuccessorExists | internal/snmptest/fake.go:160-167 | Every OID has a least stored successor or is past the last one. |
| Pruning.PollMarksOnlyDenied | internal/profile/compile.go:149-158 | A poll, whatever fails in it, marks only asked scalars that the device denies: not implemented, or over v1 without an instance. |
| Pruning.PollMarksDenied | internal/profile/compile.go:149-158 | A fault-free poll marks exactly those. |
| Pruning.OnlyDeniedIsPruned | receiver.go:495-500 | Over any run of polls, with instances that come and go and failures anywhere, a pruned OID was denied by the device in an earlier poll. |
| Pruning.ImplementedIsNeverPruned | receiver.go:495-500 | So over v2c an OID the device implements is never pruned, absent for a while or not. |
| Pruning.PrunedExactlyWhenDenied | receiver.go:495-500 | Without failures a scalar is pruned if and only if an earlier poll found it denied; over v1 one poll without the instance is enough. |
| Pruning.PruningSettlesAtOnce | internal/profile/compile.go:149-168 | Over v2c, after one poll exactly the scalars of unimplemented objects are pruned, and nothing changes again. |
| Pruning.PrunedPollStoresSame | receiver.go:495-500 | With no OID asked both ways, a poll of the pruned lists brings the same columns as one of the full lists, and the same scalars if and only if no pruned OID has a readable value by now. |
| Pruning.PruningIsTransparent | receiver.go:495-500 | So over v2c every poll of the pruned lists stores what the full lists would; a scalar is requested in the first poll and afterwards exactly if it is implemented. |
| Pruning.ColumnsSurvivePruning | internal/profile/compile.go:161-168 | Columns survive pruning if and only if no column is also a scalar that an earlier poll found denied. |
| Pruning.Compiled.MarkMissing | internal/profile/compile.go:149-158 | The missing set grows by exactly the canonical forms. |
| Pruning.Compiled.FetchOIDs | internal/profile/compile.go:161-168 | Both lists without the missing OIDs, in order. |
| Pruning.Compiled.FilterOut | internal/profile/compile.go:170-178 | The loop keeps exactly the OIDs that are not missing, in order. |
| Pruning.FilterKeepsOrder | internal/profile/compile.go:170-178 | Each OID stays or goes by itself, and what stays keeps its order. |
| Pruning.SpellingIsTheSame | internal/profile/compile.go:155-157 | However an OID is spelled when it is marked, its canonical form is pruned. |
| Profiles.NormalizeIdempotent | internal/profiledefinition/normalize.go:13-94 | Normalising a document twice is normalising it once. |
| Legacy.NormalizeKeepsMeaning | internal/profiledefinition/normalize.go:13-94 | Normalising leaves no legacy spelling behind and says the same: counter for rate, percent for gauge, a forced type where none is given, inline and column symbols, and a vendor field only where there is none; nothing else changes. |
| Profiles.MergeIsNormal | internal/profile/store.go:201-228 | Merging two normal documents gives a normal one. |
| Profiles.MergeAllIsNormal | internal/profile/store.go:165 | So normalising a merged profile changes nothing. |
| Profiles.MergedFieldIsFirstDefined | internal/profile/store.go:212-227 | Every metadata field comes from its first definer in merge order. |
| Profiles.MergedCollections | internal/profile/store.go:201-225 | Metrics, tags, static tags and ID tags are those of all merged documents, in merge order. |
| Inheritance.TraversalReachesExactly | internal/profile/store.go:149-196 | For any graph of bases, over the references as written, cycles, self-loops and diamonds included: every reachable known profile is merged exactly once, and an unknown reference is reported if and only if an unknown name is reachable. |
| Inheritance.ExpandIsPreorder | internal/profile/store.go:174-196 | The merge order is the depth-first preorder of an independent explicit-stack traversal. |
| Inheritance.ExpandIsClosed | internal/profile/store.go:174-196 | Every base of a merged profile has been seen. |
| Inheritance.ExpandIsSound | internal/profile/store.go:174-196 | Only reachable names are seen. |
| Inheritance.RefersIff | internal/profile/store.go:120-124 | A reference names a profile if and only if it is the bare name, a file name of it, or a file name with both endings. |
| Inheritance.ExtendsIff | internal/profile/store.go:176-181 | In terms of the documents: a profile extends a bare name if and only if one of those four stands among its bases. |
| Inheritance.UnknownBasesAreWritten | internal/profile/store.go:185-189 | A failed resolution reports references as they are written in reached documents, one for each unknown profile that is reached. |
| Inheritance.ResolveIsLineage | internal/profile/store.go:149-169 | Resolution succeeds exactly when every reachable name is known; the result is normal, its name, patterns and bases are the root's, its collections are the root's followed by its ancestors' in that order, and each field is the first definer's. |
| Store.ProfileStore.Resolve | internal/profile/store.go:143-169 | Over shared, mutable documents: the answer is the resolution function of library and name, whatever was resolved before; raw documents and earlier answers keep their contents. |
| Store.ProfileStore.ResolveFresh | internal/profile/store.go:153-168 | An uncached resolution returns a fresh document holding the resolution, and every slice, though written to by Normalize, holds what it held. |
| Store.ProfileStore.Add | internal/profile/store.go:104-118 | A loaded document is held normalised, under its own name or else the name it is loaded as, and marked if it comes from the user. |
| Store.ProfileStore.constructor | internal/profile/store.go:43-60 | A new store holds no document and no resolution. |
| Store.ExpandInto | internal/profile/store.go:174-196 | The recursive loop with its shared seen set merges exactly the traversal's profiles into the destination and reports its unknown references. |
| Store.Visit | internal/profile/store.go:185-194 | One parent is merged and then expanded in place. |
| Store.MergeInto | internal/profile/store.go:201-228 | The in-place merge equals the merge of the two documents as values. |
| Store.MergeMetadataInto | internal/profile/store.go:212-227 | The loop over resources, in any order, gives the merged metadata. |
| Store.CopyDefinition | internal/profile/store.go:232-257 | The copy holds the same document and shares no slice or map that merging writes to. |
| Store.NormalizeDefinition | internal/profiledefinition/normalize.go:13-40 | Rewriting in place, shared slices included, gives the normal form of the document. |
| Store.NormalizeEntries | internal/profiledefinition/normalize.go:42-60 | Normalising entries that share slices, possibly the same one twice, is normalising each. |
| Store.FoldVendorInto | internal/profiledefinition/normalize.go:24-39 | The legacy vendor becomes a metadata field unless one is there. |
| Patterns.ComparePatternsIsKeyOrder | internal/profile/match.go:124-148 | The specificity order is the lexicographic order of an integer key for each pattern. |
| Patterns.PatternOrderIsTotal | internal/profile/match.go:124-148 | It orders any two patterns, and is 0 only on equal ones. |
| Patterns.PatternOrderIsTransitive | internal/profile/match.go:124-148 | It is transitive. |
| Matching.MatchIsLongestPrefix | internal/profile/match.go:87-116 | For plain patterns and ones ending in `.*` the winner is the exact pattern if claimed, else the one with the longest prefix; none if and only if nothing covers the OID. |
| Matching.MatchDecides | internal/profile/match.go:87-116 | From the device's own text, with or without a leading dot: empty if and only if nothing is left, unmatched if and only if nothing claimed is or covers the OID, and else ambiguous or matched as the claims on the exact or longest pattern settle it. |
| Matching.CleanIDOf | internal/profile/match.go:88 | One leading dot and surrounding space do not count; space before the dot keeps the dot. |
| Matching.GlobStarIff | internal/profile/match.go:96 | A star stands for any run of characters but a slash. |
| Matching.MatchedProfileDeclaresIt | internal/profile/match.go:27-115 | A matched profile is not abstract and declares a pattern that covers the device; there is no match if and only if no such profile does. |
| Matching.ClaimsAreDeclared | internal/profile/match.go:28-44 | The indexed claims are exactly the non-empty trimmed patterns of the profiles that are not abstract, with their origin. |
| Matching.MatchIgnoresMapOrder | internal/profile/match.go:27-58 | The outcome is the same for every order in which the profile map is visited. |
| Matching.AmbiguousIff | internal/profile/match.go:62-83 | A pattern is ambiguous if and only if two user claims compete, or several claims without a user one; otherwise the user claim, or the only one, wins. |
| Matching.PickIgnoresOrder | internal/profile/match.go:62-83 | The choice does not depend on the order of the candidates. |
| Matching.SysObjectIDIndex.constructor | internal/profile/match.go:27-58 | The index holds the chosen claim of every pattern, one entry each in pattern order, and conflicts for exactly the ambiguous patterns. |
| Matching.SysObjectIDIndex.Match | internal/profile/match.go:87-116 | The loop over entries returns the most specific candidate's profile, or the empty, unmatched or ambiguous outcome. |
| PollLoop.PollsAreExclusive | receiver.go:345-434 | In every interleaving of ticks, arbitrary registry snapshots and worker steps no device is held twice, and the in-flight set is exactly the devices held by workers plus the one being dispatched. |
| PollLoop.StepIsExclusive | receiver.go:400-434 | Each atomic step keeps that, so a device dropped and rediscovered while its poll runs is not polled twice. |
| PollLoop.InFlightIsBounded | receiver.go:336-362 | At most `pollers` devices (50 if not positive) are with workers, and at most one more is marked. |
| Capacity.PoolCarriesItsSize | receiver.go:345-434 | For any devices, as many as configured pollers (50 if not positive), there is a run through two ticks at whose end workers are polling all of them at once. |
| Capacity.TickCarriesAll | receiver.go:389-434 | From any state between ticks with a waiting worker for each of the due devices, a tick can hand over all of them. |
| Capacity.SkippedOnlyWhenAllAreBusy | receiver.go:420-433 | After any run a claimed device can be skipped only if none of that many workers is waiting. |
| PollLoop.PollsKeepTheirSlots | receiver.go:376-434 | While a device stays on the schedule its due time stays in phase with its first one, it is never polled before that, and each poll takes an interval-long slot of its own, earlier than the one now due. |
| PollLoop.AtMostOneExtraPoll | receiver.go:413-434 | Any window of k intervals, wherever it starts, holds at most k + 1 polls of a device. |
| DueTimes.DueTimeIs | receiver.go:392-418 | Over every run a device is first due within an interval of being seen, and then at the one moment in phase within an interval after its last claim; being found busy or early leaves that as it is. |
| PollLoop.StepKeepsSchedule | receiver.go:389-440 | Each atomic step keeps the slot discipline, pruning and re-entry included. |
| PollLoop.NoDueDeviceIsPassedOver | receiver.go:386-418 | Every tick attends to each device of its snapshot: once passed, it is due only later, unless it was seen for the first time or still in flight. |
| PollLoop.NextSlotIsLeast | receiver.go:413-418 | The due time after a dispatch is the least in-phase time after now. |
| PollLoop.CatchUp | receiver.go:413-417 | The catch-up loop computes that time. |
| PollLoop.DispatcherNeverWaits | receiver.go:420-433 | Whatever the workers do, the dispatcher has a step that moves it on. |
| PollLoop.ShutdownCompletes | receiver.go:370-374 | Once the dispatcher has returned, every further step brings the workers closer to having returned. |
| PollLoop.ShutdownNeverSticks | receiver.go:353-374 | Until all have, some worker can take such a step; at the end nothing is in flight but an offer that cancellation cut short. |
| PollLoop.Scheduler.Tick | receiver.go:376-442 | A whole tick as a procedure, workers and cancellation interleaving anywhere: it ends between ticks or in the dispatcher's return, in the state that a sequence of enabled atomic steps reaches. |
| PollLoop.Scheduler.Serve | receiver.go:389-434 | Looking at one device and offering it is likewise a sequence of enabled steps. |
| PollLoop.Scheduler.Consider | receiver.go:392-418 | One look at a device: first sight, not due, busy or claimed, with the due time and mark that each leaves. |
| PollLoop.Scheduler.Offer | receiver.go:420-433 | The select takes a step that is enabled: a send to a waiting worker, the return on cancellation, or the skip that clears the mark. |
| PollLoop.Scheduler.Perform | receiver.go:345-362 | A worker's step, or the cancellation, happens exactly when it is enabled and as the transition says. |
| PollLoop.Scheduler.Prune | receiver.go:436-440 | Deleting while ranging keeps exactly the due times of live devices. |
| PollLoop.FollowExtendsRun | receiver.go:376-442 | Steps that a tick takes extend a run, so what holds over every run holds after every tick. |
| Registry.CounterIsStreak | internal/discovery/registry.go:80-185 | Over any run the registry holds exactly the devices that the history registers and has not dropped, each counter is the number of consecutive failures since the last success or upsert, and static is what the history says. |
| Registry.DroppedOnFailureBeyondBudget | internal/discovery/registry.go:171-185 | A discovered device is dropped by exactly the failure after `allowed` consecutive ones; a static device by none. |
| Registry.BudgetIsKept | internal/discovery/registry.go:171-185 | A held discovered device's counter never exceeds the budget. |
| Registry.IdentityIsLastSaid | internal/discovery/registry.go:80-155 | A held device's profile, sysObjectID and subnet are the last ones said of it since it was registered; an upsert that says nothing takes nothing back. |
| Registry.ReachedAsLastUpserted | internal/discovery/registry.go:80-105 | A held device's address, port and credential are those of its last upsert, and it was last seen when last heard of. |
| Registry.LoadAfterSave | internal/discovery/registry.go:188-241 | Saving and loading into a fresh registry gives back exactly the devices that are not static, counters included. |
| Registry.SavedInOrder | internal/discovery/registry.go:204 | The record is in ID order, each ID once. |
| Registry.LoadedRecords | internal/discovery/registry.go:236-239 | Records win over what was there. |
| Registry.RestartIsTransparent | internal/discovery/registry.go:188-241 | With a save and a load inserted anywhere in a run, every later state agrees on the devices that are not static, and every later failure drops the same ones. |
| Registry.DeviceRegistry.constructor | internal/discovery/registry.go:68-77 | A negative budget counts as zero. |
| Registry.DeviceRegistry.Upsert | internal/discovery/registry.go:80-105 | The field-by-field update equals the value transition: empty fields keep the old text, static is sticky, the counter is cleared. |
| Registry.DeviceRegistry.SetProfile | internal/discovery/registry.go:148-155 | Only the named device's identity and profile change. |
| Registry.DeviceRegistry.MarkSuccess | internal/discovery/registry.go:158-165 | The counter is cleared and the time recorded. |
| Registry.DeviceRegistry.MarkFailure | internal/discovery/registry.go:171-185 | Counts, and drops exactly a discovered device beyond its budget. |
| Registry.DeviceRegistry.Save | internal/discovery/registry.go:188-213 | The record is the discovered devices in ID order. |
| Registry.DeviceRegistry.Load | internal/discovery/registry.go:217-241 | Each record is put under its ID. |
| Scan.ScanIsExact | internal/discovery/scan.go:78-127 | A scan that returns uncancelled has begun every non-ignored address once, in order, received each of them once, and found exactly what they answer. |
| Scan.OneDevicePerAnsweringAddress | internal/discovery/scan.go:58-128 | Over distinct addresses: one device for each non-ignored address that answers, and nothing else. |
| Scan.PartialScanIsSound | internal/discovery/scan.go:116-126 | Whatever has been found at any moment, cancelled or not, is some address's true answer. |
| Scan.RunIsOrderly | internal/discovery/scan.go:78-127 | Conservation in every interleaving: what has been begun is with a worker, delivered or, only after cancellation, given up. |
| Scan.NeverDeadlocks | internal/discovery/scan.go:78-127 | Cancelled or not, a scan that has not returned has a step of its own to take. |
| Scan.ScanEnds | internal/discovery/scan.go:78-127 | Every run is at most 4 * addresses + workers + 4 steps long. |
| Scan.WorkersShareTheSubnet | internal/discovery/scan.go:73-103 | As many targets as there are configured workers (10 if not positive) can be under probe at once. |
| Scan.Probe | internal/discovery/scan.go:131-173 | The credential loop finds the first answer among those tried before cancellation. |
| Scan.FirstAnswerIsFirst | internal/discovery/scan.go:131-173 | A device is found if and only if some credential is answered with a non-empty sysObjectID; it carries that answer and the least such index. |
| Scan.CancelledProbe | internal/discovery/scan.go:133-135 | Cancellation in mid-probe loses the answer or changes nothing; it never promotes a later credential. |
| Scan.TargetsAreTheRest | internal/discovery/scan.go:68-71 | The targets are exactly the addresses that are not ignored, each once. |
| Cidr.HostsAreTheUsableAddresses | internal/discovery/scan.go:206-239 | The hosts are exactly the addresses sharing the network bits, less the first and last of an IPv4 subnet of at most 30 bits: 2^b or 2^b - 2 of them, distinct, all within the address space of 32 or 128 bits. |
| Cidr.ExpandCIDR | internal/discovery/scan.go:206-239 | The address loop returns those hosts in order, stops at the top of the address space, and refuses exactly the subnets above the limit, 65536 if none is set. |
| Cidr.RefusedWhenTooWide | internal/discovery/scan.go:215-220 | The saturating count never changes the decision: refused if and only if the true 2^b exceeds the limit, 65536 if none is set; the count is 2^b or the largest 64-bit number. |
| Cidr.PrefixIsInterval | internal/discovery/scan.go:226 | A masked prefix contains exactly the 2^b addresses from its own on, and they fit the address space. |
| Pool.PointShowsTheBestCall | internal/report/pool.go:93-132 | After any calls a key's point is its first accepted call's, in that call's metric with its attributes, time and start, and shows the value of the earliest accepted call of highest priority. |
| Pool.NoCallNoPoint | internal/report/pool.go:93-132 | A key that no accepted call fed has no point. |
| Pool.HighestPriorityWins | internal/report/pool.go:102-131 | The running maximum that the calls define and the pool agree, start times included, after any calls. |
| Pool.BestFeedIsBest | internal/report/pool.go:103-109 | Overwriting on strictly greater priority selects the earliest call of highest priority. |
| Pool.OnePointPerKey | internal/report/pool.go:93-132 | Points and stream keys correspond one to one. |
| Pool.NoDuplicateStreams | internal/report/pool.go:12-17 | No two points of the output share metric name and attributes. |
| Pool.OneInstrumentPerName | internal/report/pool.go:53-85 | Every name has one metric with data, of the unit and instrument of its first call with a known instrument. |
| Pool.NamesDistinctIff | internal/report/pool.go:53-85 | The output has every metric name once if and only if each name that is asked for again had been given a known instrument by then. |
| Pool.StartsNeverChange | internal/report/builder.go:658-666 | A recorded start time is changed by no later call and no later poll. |
| Pool.SameStartInEveryPoll | internal/report/builder.go:658-666 | A cumulative stream shows the same start in every poll that reports it. |
| Pool.PointShowsItsOwnCalls | internal/report/pool.go:102 | A stream whose names and attributes respect the separators is fed by calls of its own only. |
| Pool.MetricPool.Add | internal/report/pool.go:93-132 | The procedure makes exactly the transition that the results above are about, and fails exactly when no metric fits. |
| Pool.MetricPool.MetricFor | internal/report/pool.go:53-85 | Finds, refuses or creates the metric as the value transition says. |
| Pool.MetricForAccepts | internal/report/pool.go:53-85 | In terms of the calls: a metric is found or made for exactly the accepted ones. |
| Pool.MetricPool.Overwrite | internal/report/pool.go:103-109 | Replaces value and priority only on a strictly higher priority. |
| Pool.Builder.StartTime | internal/report/builder.go:658-666 | The recorded start, recording the first observation. |
| Streams.KeysAreInjective | internal/report/builder.go:646-653 | Keys are injective when names have no `&#124;`, attribute keys no `=` and values no `,`. |
| Streams.BarInNameCollides | internal/report/builder.go:652 | Any `&#124;` in a name can be moved into an attribute key without changing the key. |
| Streams.EqualsInKeyCollides | internal/report/builder.go:649 | Any `=` in an attribute key can be moved into its value. |
| Streams.CommaInValueCollides | internal/report/builder.go:652 | A `,` in a value can stand for a second attribute. |
| Streams.StreamKeyFromMap | internal/report/builder.go:646-653 | The key does not depend on the order in which the map is ranged over. |
| Streams.SortingTextForgetsOrder | internal/report/builder.go:651 | Sorting two arrangements of the same texts gives the same list. |

## Left out

- gosnmp, BER, sockets, credentials and USM: a session is the function described above.
- Nested columns: longest-match attribution ends an outer walk at an inner column, so completeness is not claimed; the truth of every stored cell and the bounds on packets do cover nested columns.
- Malformed OIDs: `Malformed` is about one malformed arc among numbers, not about cycles of several malformed ones; exactness is for canonical OIDs.
- Agent.Fake.Set: names that do not trim to a canonical OID are not stored, since their order is no order.
- Agent.Fake.AnswerGet: the fake has no object types beside its instances, as in the code; an instance stored with the noSuchInstance tag is how it answers for an implemented object.
- Agent.Fake.AnswerGetBulk: the fake's fault counters (`FailNext`, `TooBigOver`, `AlwaysTooBig`, `NoGetBulk`) are not fields of the model; sessions that refuse cover them.
- Text: `strings.TrimSpace` removes the Latin-1 spaces only, and addresses are numbers rather than text, so an ignored address spelled differently from `netip`'s own spelling is not distinguished from an unknown one.
- Numbers: decoded values and metric values are reals, so float rounding is not modelled.
- YAML and JSON: profiles are datatypes and a saved registry is the list of its records; the error returns of reading, parsing and storing are not part of this model.
- `filepath.Match` with `?`, `[` or `\`: patterns are literals and `*`, which also crosses dots as in the code.
- Regular expressions, `Compile`'s collection of OIDs from a profile, and `Validate`: table-driven, single-branch code.
- Store: the outer metadata map and the registry's device pointers are values here, since no two names share them; slices and field maps, which are shared, are objects.
- Pool: metrics and points are values addressed by their place in the output, so pdata's references and its limits are not modelled.
- Registry: `Devices`, `Get` and `Len` only read the map, and are not procedures of the model.
- Throughput and Recovery: the packet counts are for SNMPv2c devices that answer everything, and for columns that fit one batch; `Columns.WalkPduBound` is the bound for all others.
- Scan: `Scan`'s early returns for an unparsable subnet or an empty credential list come before the protocol and are not part of it.
- PollLoop: the poll itself takes any time and always returns; hash quality of `offsetFor` is replaced by an arbitrary offset within the interval, and telemetry is dropped.
- `pollDevice` beyond fetching and pruning, profile re-detection, scan scheduling and the collector's lifecycle.
- The report builder beyond the pool: naming, attributes, sensors, utilisation.
- cmd/*, documentation generation and the profile corpus.
