# Odradek, verified

A Dafny model of the parts of Odradek where mistakes are quiet: transactions and idempotence
between a producer, a broker and a `read_committed` reader; the schema compiler's encoders and
decoders; the pipelined connection; the budgets and pools that account for memory and sockets;
and the small algorithms whose arithmetic has to be exact. `dafny verify dfyconfig.toml`
checks everything.

## How it is laid out

* **Broker and log.** `Broker.dfy` gives each handler of the reference broker twice: as a
  function from the state before to the state after, and as a method of `ClusterState` that
  performs it in place and is proved equal to the function. `TxnLog.dfy` reads a partition as a
  ghost history of batches and markers, in which a batch's verdict is its producer's next
  marker. `Transactions.dfy` runs broker and histories side by side and proves the invariant of
  every step; `Atomicity.dfy` draws the promises from it, and `Identities.dfy` says over whole
  runs what the broker answers.
* **Readers.** `Consumer.dfy` is the client's filter and batch loop, `ReadCommitted.dfy` proves
  the filter exact, and `Reading.dfy` joins broker, fetches and reader into one statement,
  `CommittedReadsAreExact`; `LiveReads.dfy` lets the broker run on while the reader follows.
  `StoredReads.dfy` is about what the reference broker itself answers, which is less, and
  `Uncommitted.dfy` about readers without the isolation level.
* **Producers.** `Delivery.dfy` plays one stamped producer against the broker over a network
  that loses, repeats, delays and reorders; `Sessions.dfy` is about the next producer under the
  same id. `ProducerRules.dfy` has the client's transaction state machine and a trace of what a
  producer did; `Producer.dfy` is the producer itself, whose `Valid` says how every field follows
  from that trace, so that what holds of lawful traces holds for every sequence of calls.
* **Codec.** `Wire.dfy` has the primitives, `Schema.dfy` version ranges, guards and schemas,
  `Codec.dfy` what the compiled encoders and decoders do, `Tags.dfy` and `RoundTrip.dfy` that
  decoding undoes encoding, `Reencode.dfy` that encoding undoes decoding, `TagOrder.dfy` for
  which values exactly it does. `Layout.dfy` says what the bytes are, without the writers, and
  proves that the encoders write them; `Prefixes.dfy` that a message cut short is refused.
* **Connection, accounting, algorithms.** `Connection.dfy` (with `Replies.dfy`, which follows the
  reply of each request), `Budget.dfy`, `Pool.dfy`, `Assignor.dfy` (with `Order.dfy`),
  `Frame.dfy`, `Retry.dfy`.

Handlers of the broker run under one lock, so each is one step. Callers of a connection and of a
pool interleave, so there every lock section and every suspension point is a step of its own.

## What is false, and exactly when

Some promises one would expect do not hold of the code as it is. Each has a counterexample
and, where there is one, the exact condition under which it does hold.

* A flush whose first stamp is refused puts back one of the buffers it drained and drops the
  others; its comment says whatever was drained goes back. `Producer.Producer.Flush` states that
  records are conserved if and only if that does not happen with several buffers drained;
  `Producer.RefusedFlushLosesARecord` is a run in which it does.
* Claiming a transactional id is documented to end what the predecessor left open. The broker
  leaves it open, and its offsets held, and the successor's first commit commits the one and
  publishes the other (`Atomicity.SuccessorCommitsLeftovers`). A takeover is clean if and only if
  nothing was open in any partition and nothing new was held (`Atomicity.TakeoverIsCleanIffIdle`).
* The reference broker answers a `read_committed` fetch with its log as it was produced: base
  offsets are the producers' zeros, no marker is stored, and nothing is cut at the last stable
  offset. A reader of that may be shown aborted batches although nothing is open, and may miss
  committed ones (`StoredReads.AbortedIsShown`, `StoredReads.CommittedIsHidden`); exactly when is
  `StoredReads.StoredAnswerIsExactIff`. `Reading.CommittedReadsAreExact` and
  `LiveReads.LiveReadsAreExact` are about answers as the protocol prescribes them.
* The broker recognizes a repeat by its first sequence alone. A retry to which later records
  were merged, or another batch after an abort cleared the first without moving the counter, is
  answered as a success, and its records are lost (`Delivery.MergedRetryIsLost`,
  `Delivery.SuccessMeansStoredIff`).
* A new holder of a transactional id restarts its sequences at zero, and the client says the
  broker expects that. The broker keeps the producer id and remembers its last sequences for
  good. A new session's first batch is accepted only where the id never wrote or its last batch
  ended just short of zero; it is answered as a repeat, and lost, where that batch began at zero,
  and refused for ever as a gap elsewhere (`Sessions.NextSessionIsLost`,
  `Sessions.NextSessionIff`, `Delivery.GapIsForever`).
* A sequence is 32 bits wide and wraps to negative numbers, which the broker takes for no stamp at
  all: every copy of such a batch is appended (`Delivery.WrappedIsStoredTwice`,
  `Delivery.RepeatIsRecognizedIff`). Delivery is exactly once under every schedule if and only if
  neither this nor the previous case arises (`Delivery.ExactlyOnceIff`).
* An abort that is acknowledged may have undone nothing: when the answer to a commit is lost the
  producer may only abort, and the broker accepts that and leaves everything committed
  (`Atomicity.SecondEndTxnDecidesNothing`). It undoes nothing if and only if nothing was open or
  held (`Atomicity.EndTxnDoesNothingIffIdle`).
* An epoch is sixteen bits wide and wraps, in a build without overflow checks; in one with them
  the claim at the largest epoch panics. After the wrap a superseded producer may write again
  (`Atomicity.WrapUnfencesTheOld`, `Atomicity.WrapIsReached`). When it is fenced, over every run,
  is `Atomicity.FencingIsExact`. Short of the wrap fencing is permanent, but only of writes that
  name the id and whose first batch carries the old epoch (`Atomicity.OnlyFirstBatchesAreFenced`).
* An array of structs that take no bytes at a version is encoded and then refused by the decoder
  (`RoundTrip.WidthlessElementIsRefused`). A struct without tagged fields of its own writes its
  unknown tags unsorted (`TagOrder.UnsortedTagsAreRefused`), and one with them writes an unknown
  tag twice, or beside a known one of the same number (`TagOrder.DisorderIsRefused`). A value
  comes back from its encoding if and only if none of that is the case (`TagOrder.RoundTripsIff`).
* A write that fails, unlike one that is abandoned, leaves the connection open with a broken
  frame on it (`Connection.WriteErrorLeavesItOpen`), and nothing else does
  (`Connection.OpenIsIntactIff`). The answer to a request that was given up on fails the whole
  connection (`Connection.AnswerToTheDepartedFailsEveryone`).
* A connection whose reader fails tells everyone in the table so. A request that passed the
  closed-check before, and registers after, is written to the dead connection and waits until its
  own timeout, or another's, fails it (`Replies.StrandedRequest`, `Replies.StrandedForever`); no
  other request is left behind (`Replies.StrandedIff`).
* An allocator that rounds up and a refused settlement leave more live than charged
  (`Budget.GenerousAllocatorDefeatsTheBound`); over any run that is the only way
  (`Budget.BudgetHoldsIff`).
* Used concurrently, a pool may hold more connections than its peak
  (`Pool.ConcurrentPoolMayOvershoot`): if and only if a checkout is counted while connections are
  at the peak and leases are not (`Pool.PeakBoundsSocketsIff`), which never happens to one caller
  at a time (`Pool.SequentialPoolNeverOvershoots`).

## Model

| member | source | states |
|---|---|---|
| Broker.LastStableOffset | crates/odradek-acceptance/src/subject.rs:743-749 | the least first offset of an unfinished transaction, or the end of the log when none is open |
| Broker.Append | crates/odradek-acceptance/src/subject.rs:2488-2538 | an accepted record set takes its span of offsets, joins the transaction the request names whether announced or not, and becomes the last batch its producer is known by |
| Broker.ClusterState.ProduceExchange | crates/odradek-acceptance/src/subject.rs:2382-2590 | partition by partition: fenced, out of sequence, repeated (answered with the first offset, nothing appended) or accepted at the end of the log; transactions are untouched |
| Broker.ClusterState.ProducePartition | crates/odradek-acceptance/src/subject.rs:2447-2547 | the same for one partition, against a snapshot of the transactions taken before the request |
| Broker.ClusterState.InitProducerIdExchange | crates/odradek-acceptance/src/subject.rs:2773-2807 | a fresh producer id, or the id a transactional id has kept with the next epoch, its announced partitions forgotten and nothing else |
| Broker.ClusterState.AddPartitionsToTxnExchange | crates/odradek-acceptance/src/subject.rs:2835-2870 | partitions join the transaction under its current epoch, or the request is refused and nothing changes |
| Broker.ClusterState.TxnOffsetCommitExchange | crates/odradek-acceptance/src/subject.rs:3319-3341 | offsets are held back with the transaction under its current epoch, or refused |
| Broker.LastEntryStands | crates/odradek-acceptance/src/subject.rs:3319-3341 | of several offsets written for one key in a request the last one stands |
| Broker.ClusterState.EndTxnExchange | crates/odradek-acceptance/src/subject.rs:2888-2945 | every partition the producer has open is marked, aborted runs are recorded, held offsets are published if and only if it commits, and the transaction is emptied |
| Broker.ClusterState.MarkPartitions | crates/odradek-acceptance/src/subject.rs:2900-2932 | in every partition open for the producer the marker takes one offset and closes the run, and only an abort is listed |
| TxnLog.NextEndSnoc | crates/odradek-acceptance/src/subject.rs:743-749 | how one more entry changes which marker ends a producer's run next |
| TxnLog.VerdictIsFinal | crates/odradek-acceptance/src/subject.rs:2888-2945 | whatever is appended, a verdict once given never changes |
| TxnLog.OpenIsExact | crates/odradek-acceptance/src/subject.rs:708-722 | a producer is listed open in a partition exactly when it has an undecided batch there, at the offset of the first |
| TxnLog.TiledInOrder | crates/odradek-acceptance/src/subject.rs:2523-2524 | entries occupy disjoint, ascending offset ranges |
| TxnLog.HorizonIsDecided | crates/odradek-acceptance/src/subject.rs:743-749 | the last stable offset is within the log, everything transactional below it is decided, and when short of the end it is the first offset of something undecided |
| TxnLog.HorizonNeverRecedes | crates/odradek-acceptance/src/subject.rs:743-749 | as the log grows the last stable offset never moves back |
| Transactions.StepIsTheBrokers | crates/odradek-acceptance/src/subject.rs:2382-2590 | the world the properties are proved over moves exactly as the broker does |
| Transactions.StepInv | crates/odradek-acceptance/src/subject.rs:2382-2945 | every request keeps the invariant: histories and summaries agree, verdicts and decisions agree, held and published offsets agree, producer ids are distinct |
| Transactions.RunInv | crates/odradek-acceptance/src/subject.rs:2382-2945 | the invariant holds after every run of every length |
| Transactions.MarkedVerdict | crates/odradek-acceptance/src/subject.rs:2900-2932 | a marker gives its verdict to all the producer's undecided batches of the partition and to no other |
| Atomicity.AllOrNothing | crates/odradek-acceptance/src/subject.rs:2888-2945 | after every honest run, each transactional batch in each partition is committed, aborted or undecided as its transaction is, and the committed offsets are those of the committed transactions in the order they ended |
| Atomicity.OneFate | crates/odradek-acceptance/src/subject.rs:2888-2945 | two batches of one transaction share their fate, in whichever partitions |
| Atomicity.EndTxnDecidesEverything | crates/odradek-acceptance/src/subject.rs:2888-2945 | an accepted EndTxn decides everything its producer had undecided, in every partition, changes no other verdict, and publishes the held offsets if and only if it commits |
| Atomicity.SecondEndTxnDecidesNothing | crates/odradek-acceptance/src/subject.rs:2888-2945 | an EndTxn that follows another under the same epoch is accepted and decides nothing, whatever it asks for |
| Atomicity.EndTxnDoesNothingIffIdle | crates/odradek-acceptance/src/subject.rs:2888-2945 | an accepted EndTxn, such as an acknowledged abort, decides nothing and lets go of nothing if and only if its producer had nothing open in any partition and held nothing back |
| Atomicity.HistoryGrows | crates/odradek-acceptance/src/subject.rs:2495-2547 | histories only grow |
| Atomicity.StableHorizon | crates/odradek-acceptance/src/subject.rs:743-749 | over every run the last stable offset never decreases nor passes the end of the log, everything below it is decided, and no verdict changes |
| Atomicity.ClaimRaisesEpoch | crates/odradek-acceptance/src/subject.rs:2773-2807 | claiming an id raises its epoch if and only if the epoch is not already the largest sixteen-bit value; there it wraps, where additions are not checked for overflow |
| Atomicity.EpochCountsClaims | crates/odradek-acceptance/src/subject.rs:2773-2807 | over every run an id's epoch is its old one plus the claims made since, in sixteen bits |
| Atomicity.FencingIsExact | crates/odradek-acceptance/src/subject.rs:2963-3013 | over every run: after k claims a write under the id with epoch e is fenced if and only if 0 < k mod 2^16 <= 32767 - e, and the other three requests with epoch e pass if and only if k is a multiple of 2^16 |
| Atomicity.WrapUnfencesTheOld | crates/odradek-acceptance/src/subject.rs:3001-3013 | right after the wrap the superseded producer's writes are ruled as if nobody had claimed its id |
| Atomicity.WrapIsReached | crates/odradek-acceptance/src/subject.rs:2773-2807 | an honest run that brings an id to the wrap |
| Atomicity.OnlyFirstBatchesAreFenced | crates/odradek-acceptance/src/subject.rs:3001-3013 | a write without a transactional id is never fenced, and of a set only the first batch is looked at |
| Atomicity.EpochNeverFalls | crates/odradek-acceptance/src/subject.rs:2773-2807 | short of that wrap an id keeps its producer id for good and its epoch never falls |
| Atomicity.FencedWritesDoNothing | crates/odradek-acceptance/src/subject.rs:3001-3013 | every write of a request carrying an older epoch is refused and changes no log |
| Atomicity.FencingIsPermanent | crates/odradek-acceptance/src/subject.rs:2963-3013 | after a newer epoch is issued, whatever follows short of the wrap, no request made under the id with an older one appends, joins a transaction, holds back an offset or ends a transaction |
| Atomicity.PlainIdIsUnshared | crates/odradek-acceptance/src/subject.rs:2773-2807 | a producer id handed out without a transactional id never belongs to one |
| Atomicity.NoIdIsShared | crates/odradek-acceptance/src/subject.rs:2773-2807 | no two transactional ids ever share a producer id |
| Atomicity.SuccessorCommitsLeftovers | crates/odradek-acceptance/src/subject.rs:2801-2803 | a takeover leaves the predecessor's open batches open, and the new holder's first commit, whatever happens before it, commits them |
| Atomicity.OffsetsAreCleanIff | crates/odradek-acceptance/src/subject.rs:2935-2945 | the predecessor's held offsets stay held, and the new holder's first commit publishes them under its own; that changes nothing if and only if each is held anew or committed already |
| Atomicity.TakeoverIsCleanIffIdle | crates/odradek-acceptance/src/subject.rs:2801-2803 | whatever happens between the claim and the new holder's first commit, a takeover keeps out all the predecessor left, in every partition and among the offsets, if and only if the predecessor had nothing open anywhere and held nothing new |
| Identities.ClaimAnswersWhatIsKept | crates/odradek-acceptance/src/subject.rs:2773-2807 | a claim of an id is answered with the producer id and epoch stored under it after the call: those it had, one epoch on, or a producer id above the counter and epoch zero |
| Identities.ClaimsAreAnsweredAlike | crates/odradek-acceptance/src/subject.rs:2773-2807 | over every run, every claim of an id is answered with the same producer id, which is the one held under it, and with as epoch the number of claims before, in sixteen bits |
| Identities.NewIdsAreNew | crates/odradek-acceptance/src/subject.rs:2773-2807 | over every run, the first claim of an id, and every claim without one, is answered with a producer id above all those handed out before and epoch zero |
| Identities.EpochCheckIff | crates/odradek-acceptance/src/subject.rs:2963-2977 | over every run, a transactional request is unmapped if and only if its id was never claimed, passes if and only if it carries the epoch of the last claim, and is fenced otherwise |
| Identities.AnnouncedIff | crates/odradek-acceptance/src/subject.rs:2835-2945 | over every run, a partition is announced for an id if and only if an accepted request listed it and neither a claim nor an accepted EndTxn of the id came after |
| Identities.EachWriteIsAnswered | crates/odradek-acceptance/src/subject.rs:2382-2590 | a produce request has one answer for each write, in its place: the code of the refusal with offset -1 and nothing stored, the first offset of the repeated batch, or the offset from which its batches were appended |
| Consumer.SortSorts | crates/odradek-client/src/consumer.rs:668-669 | the aborted list is put in offset order and keeps its members |
| Consumer.EnforceIsExact | crates/odradek-client/src/consumer.rs:680-691 | exactly the runs that start at or before the batch's last offset come into force, and their producers are disowned |
| Consumer.BatchFilter.Keeps | crates/odradek-client/src/consumer.rs:679-706 | performs in place what `Judge` says of the state and the batch; that it is right is `ReadCommitted.FilterIsExact` for one isolation level and `Uncommitted.KeepsAllButControl` for the other |
| Consumer.FetchBudget.ClaimRecords | crates/odradek-client/src/consumer.rs:567-578 | records are charged against what is left or refused, never truncated |
| Consumer.FetchBudget.ClaimDecompressed | crates/odradek-client/src/consumer.rs:581-590 | the same for decompressed bytes |
| Consumer.PushRecords | crates/odradek-client/src/consumer.rs:731-752 | the records of a batch at absolute offsets, those before the requested one left out |
| Consumer.ReadContents | crates/odradek-client/src/consumer.rs:599-639 | a compressed batch is charged, its claimed count checked against its length, and its records must be exactly that many |
| Consumer.FetchOnce | crates/odradek-client/src/consumer.rs:454-501 | the batch loop performs `Fetch`, whose results are exact at either isolation level by `Reading.ReadingIsExact` and `Uncommitted.UncommittedReadsAreExact`, and which succeeds as `Consumer.FetchSucceedsIff` says |
| Consumer.FetchIsBounded | crates/odradek-client/src/consumer.rs:560-590 | a fetch never materializes more records nor more decompressed bytes than its allowance |
| Consumer.FetchSucceedsIff | crates/odradek-client/src/consumer.rs:560-639 | a fetch succeeds if and only if every compressed batch it keeps opens to exactly the records it declares, at seven bytes or more each, and all it keeps fits the allowance of records and of bytes |
| ReadCommitted.FilterIsExact | crates/odradek-client/src/consumer.rs:655-724 | for every history of interleaved producers, every range of it and every order of the aborted list, one pass surfaces a batch if and only if it is data and not of an aborted transaction |
| Reading.AbortedIsExact | crates/odradek-acceptance/src/subject.rs:2900-2932 | the broker lists exactly the transactions that were aborted in the partition |
| Reading.BrokerListAccompanies | crates/odradek-acceptance/src/subject.rs:2698-2720 | that list is what the filter needs, although it is in the order transactions finished |
| Reading.UncutAnswerIsSafeIffIdle | crates/odradek-client/src/consumer.rs:655-724 | a reader given a whole partition, batches at their offsets and markers in place, is shown committed batches only if and only if no transaction is open |
| Reading.FetchIsExact | crates/odradek-client/src/consumer.rs:454-501 | a fetch that succeeds returns exactly the records that should be surfaced from the offset on, and the next position |
| Reading.NextFetch | crates/odradek-client/src/consumer.rs:469-475 | one response, even one that begins mid-batch or is all filtered out, moves the reader on without a gap |
| Reading.ReadingIsExact | crates/odradek-client/src/consumer.rs:454-501 | following the next position, however the log is cut into responses, yields every surfaced record from the start on, once |
| Reading.RecordsAscend | crates/odradek-client/src/consumer.rs:731-752 | in strictly ascending offset order, none before the start |
| Reading.CommittedReadsAreExact | crates/odradek-client/src/consumer.rs:655-724 | from the broker's first request to the reader's last record: a reader answered below the last stable offset has exactly the records of committed transactions and of none, each once, in order |
| LiveReads.StillAccompanies | crates/odradek-acceptance/src/subject.rs:2698-2720 | the aborted list given below the last stable offset of one moment is still the one the same entries need in every later history |
| LiveReads.LiveReadsAreExact | crates/odradek-client/src/consumer.rs:454-501 | the same while the broker runs on: each fetch answered from the log, last stable offset and aborted list of its own moment, the reader has exactly what the final history calls committed |
| Uncommitted.KeepsAllButControl | crates/odradek-client/src/consumer.rs:679-706 | without the isolation level, whatever the aborted list and the batches before, a batch is surfaced if and only if it is not a control batch |
| Uncommitted.MarkerTypeDecides | crates/odradek-client/src/consumer.rs:709-724 | where the first record of a plain batch has a key of four bytes or more, the batch is an abort marker if and only if the second 16-bit number there is zero |
| Uncommitted.UncommittedReadsAreExact | crates/odradek-client/src/consumer.rs:454-501 | without the isolation level, following the next position however the log is cut into responses yields every record of every data batch from the start on, committed, aborted or undecided, each once and in order |
| Uncommitted.PushCarries | crates/odradek-client/src/consumer.rs:731-752 | a record given out has the key, value and headers of the record in the batch, and its offset and timestamp made absolute |
| Uncommitted.EncodedReadsBack | crates/odradek-client/src/producer.rs:1194-1256 | the records a producer encodes as one batch are read back, wherever the broker puts it, at consecutive offsets with their keys, values, headers and times |
| StoredReads.StoredFilterIs | crates/odradek-client/src/consumer.rs:679-706 | over batches without markers nothing that came into force ever leaves it |
| StoredReads.ShowsIff | crates/odradek-acceptance/src/subject.rs:2687-2720 | the reference broker's own answer shows a stored batch if and only if it is outside any transaction or no aborted run of its producer begins at or before the largest last offset stored up to there |
| StoredReads.EveryStoredIsAnEntry | crates/odradek-acceptance/src/subject.rs:2522 | every stored batch is that of an entry of the history, and is shown if and only if that entry is |
| StoredReads.StoredAnswerIsExactIff | crates/odradek-acceptance/src/subject.rs:2687-2720 | so it shows committed batches only if and only if every batch of an uncommitted transaction is reached in that way, and all of them if and only if none of a committed one is |
| StoredReads.UnabortedIsSafeIffIdle | crates/odradek-acceptance/src/subject.rs:2687-2720 | while nothing was aborted it is safe if and only if no transaction is open |
| StoredReads.AbortedIsShown | crates/odradek-acceptance/src/subject.rs:3078-3081 | a run after which nothing is open and an aborted batch is shown |
| StoredReads.CommittedIsHidden | crates/odradek-acceptance/src/subject.rs:2687-2720 | a run after which a committed batch is hidden |
| Delivery.MineAscend | crates/odradek-acceptance/src/subject.rs:3036-3056 | the batches of one session stand in the log in strictly ascending order of its lists |
| Delivery.PlayInv | crates/odradek-client/src/producer.rs:1033-1060 | the invariant of a session over a network that loses, repeats, delays and reorders requests and answers, begun in a partition that may hold anything but takes sequence zero for what is due |
| Delivery.LogIsTheListsInOrder | crates/odradek-acceptance/src/subject.rs:2447-2547 | under all of that the log holds distinct lists of the session in sequence order, each at most once, plain or compressed |
| Delivery.AcknowledgedExactlyOnce | crates/odradek-client/src/producer.rs:1033-1060 | a delivery that returned an offset is in the log exactly once since the session began, at that offset |
| Delivery.ExactlyOnceIff | crates/odradek-acceptance/src/subject.rs:3036-3073 | from any log: exactly-once holds under every schedule if and only if the broker does not take sequence zero for a repeat and, where it accepts it, no list begins past the wrap of the sequence |
| Delivery.RepeatIsNeverStored | crates/odradek-acceptance/src/subject.rs:3059-3073 | where it takes sequence zero for a repeat, the first list is acknowledged and not stored |
| Delivery.GapIsForever | crates/odradek-acceptance/src/subject.rs:3036-3056 | where it sees a gap, nothing of the session is ever acknowledged |
| Delivery.WrappedIsStoredTwice | crates/odradek-client/src/producer.rs:334-350 | the first list that begins past the wrap is stored by every copy that arrives |
| Delivery.RepeatIsRecognizedIff | crates/odradek-acceptance/src/subject.rs:3036-3073 | the repeat of an accepted batch is recognized if and only if its sequence is not negative, and accepted again otherwise |
| Delivery.CounterIsNegativeIff | crates/odradek-client/src/producer.rs:342-345 | for which numbers of delivered records the next sequence is negative |
| Sessions.KnownIffEverTook | crates/odradek-acceptance/src/subject.rs:2524-2538 | over every run a partition knows a producer id if and only if it ever accepted a stamped batch of it; neither an EndTxn nor a claim makes it forget |
| Sessions.FirstBatchIff | crates/odradek-acceptance/src/subject.rs:3001-3073 | the first batch of an id's new holder is accepted, answered as a repeat, or refused as a gap, by the two sequences the partition remembers |
| Sessions.NextSessionIff | crates/odradek-acceptance/src/subject.rs:2773-2807 | over every run, when the first batch after a claim is accepted, and when it is answered as a repeat |
| Sessions.NextSessionIsLost | crates/odradek-client/src/producer.rs:444-450 | an honest run with nothing left open or held, after which the new holder's first batch is answered as a success and not stored |
| Delivery.MergedRetryIsLost | crates/odradek-acceptance/src/subject.rs:3059-3073 | a retry with more records than the first attempt is answered as a success and its extra record is not stored |
| Delivery.SuccessMeansStoredIff | crates/odradek-acceptance/src/subject.rs:3036-3073 | a successful answer means the batch's own records, compressed or not, are stored at the answered offset if and only if the broker knew no batch of the producer at that sequence, or knew this one |
| ProducerRules.EstimateConcat | crates/odradek-client/src/producer.rs:1183-1193 | the estimate of a buffer is the sum over its records, however it was put together |
| ProducerRules.FencedIsForever | crates/odradek-client/src/producer.rs:288-327 | fenced is absorbing: nothing is sent, begun or ended afterwards |
| ProducerRules.FencesIff | crates/odradek-client/src/producer.rs:298-328 | exactly three broker codes fence a transactional producer, every other failure leaves an open transaction abortable, and nothing moves a fenced one |
| ProducerRules.FailureEndsByAbort | crates/odradek-client/src/producer.rs:494-562 | a failed transaction is left only by an acknowledged abort or by fencing |
| ProducerRules.CommitFollowsSuccess | crates/odradek-client/src/producer.rs:478-487 | a commit is asked for only if everything sent since the transaction began succeeded |
| ProducerRules.AnnouncedBeforeDelivered | crates/odradek-client/src/producer.rs:602-622 | a transactional batch goes only to a partition the coordinator acknowledged for the current transaction |
| ProducerRules.SequencesLeaveNoGap | crates/odradek-client/src/producer.rs:334-352 | the next attempt on a partition carries the same sequence after a failure and the following one after a success |
| ProducerRules.OneIdentity | crates/odradek-client/src/producer.rs:857-882 | the identity is taken once and kept: every stamp since it was claimed carries it |
| ProducerRules.InsertSorts | crates/odradek-client/src/producer.rs:794 | deliveries are reported in key order |
| Producer.Producer.constructor | crates/odradek-client/src/producer.rs:389-405 | a new producer is disabled or uninitialized and has delivered what it was given: nothing |
| Producer.Producer.InitTransactions | crates/odradek-client/src/producer.rs:431-453 | claims the id once, from a new producer with full acknowledgements, and restarts every sequence |
| Producer.Producer.BeginTransaction | crates/odradek-client/src/producer.rs:462-465 | opens a transaction from the ready state and from no other |
| Producer.Producer.ClaimPartitions | crates/odradek-client/src/producer.rs:602-622 | announces what is not yet announced; a refusal poisons an open transaction, a wrong state does not |
| Producer.Producer.EndTransaction | crates/odradek-client/src/producer.rs:553-562 | asks for the given end and for nothing else; ready and unannounced on success, poisoned on failure |
| Producer.Producer.AbortTransaction | crates/odradek-client/src/producer.rs:494-508 | clears every buffer, whatever the coordinator answers, asks for an abort and never for a commit, and leaves the counters alone |
| Producer.Producer.SendOffsetsToTransaction | crates/odradek-client/src/producer.rs:524-549 | only inside an open transaction, and poisons it on failure |
| Producer.Producer.NextStamp | crates/odradek-client/src/producer.rs:334-352 | the current counter, which advances by the record count with thirty-two-bit wrap-around |
| Producer.Producer.StampBatch | crates/odradek-client/src/producer.rs:857-882 | a stamp under the current identity whose sequence is the number of records acknowledged so far |
| Producer.Producer.StampAll | crates/odradek-client/src/producer.rs:725-739 | stamping a flush can fail only before its first stamp, so the path that does not rewind leaves no gap |
| Producer.Producer.Restore | crates/odradek-client/src/producer.rs:887-893 | an undelivered batch goes back in front of what was buffered since, and the estimate stays the sum |
| Producer.Producer.Attempt | crates/odradek-client/src/producer.rs:772-778 | a failed delivery hands its sequence range back, a successful one keeps it: the counter equals what was acknowledged |
| Producer.Producer.Buffer | crates/odradek-client/src/producer.rs:628-641 | a record goes to the end of its partition's buffer and is counted into the estimate |
| Producer.Producer.Enqueue | crates/odradek-client/src/producer.rs:628-644 | delivers the whole buffer as one batch once it passes the limit, keeps it when that fails, and loses nothing |
| Producer.Producer.FlushPartition | crates/odradek-client/src/producer.rs:798-848 | any failure leaves the buffer as it was |
| Producer.Collect | crates/odradek-client/src/producer.rs:762-796 | deliveries sorted by key, or the failure of the lowest key |
| Producer.Producer.Flush | crates/odradek-client/src/producer.rs:702-796 | exactly the failed partitions keep their buffers; delivered and buffered records together stay what was enqueued, if and only if not (several buffers drained and the first stamp refused) |
| Producer.Producer.Produce | crates/odradek-client/src/producer.rs:897-925 | one batch past the buffers, with the sequence handed back on failure |
| Producer.Producer.CommitTransaction | crates/odradek-client/src/producer.rs:478-487 | asks for a commit if and only if everything flushed, never for an abort; a success means the last thing that happened is an acknowledged commit; on any failure the transaction cannot be committed any more |
| Producer.OneSurvives | crates/odradek-client/src/producer.rs:727-738 | keeping one of the drained buffers loses records exactly when there were several |
| Producer.RefusedFlushLosesARecord | crates/odradek-client/src/producer.rs:727-738 | a concrete producer that loses a buffered record to a refused stamp |
| Wire.IntInverse | crates/odradek-protocol/src/wire.rs:64-78 | fixed-width integers read back, and leave what follows |
| Wire.VarintInverse | crates/odradek-protocol/src/wire.rs:91-126 | every 64-bit value survives the varint, whatever follows it |
| Wire.ReadVarint | crates/odradek-protocol/src/wire.rs:107-126 | what a varint reader accepts fits 64 bits and is written in no more bytes |
| Wire.LenInverse | crates/odradek-protocol/src/wire.rs:302-340 | length prefixes and null markers read back in both forms |
| Wire.BlobInverse | crates/odradek-protocol/src/wire.rs:163-295 | strings and byte strings, null or not, read back in both forms |
| Wire.ReadBlob | crates/odradek-protocol/src/wire.rs:190-295 | what was read can be written again, no longer |
| Wire.TagsInverse | crates/odradek-protocol/src/wire.rs:374-432 | a strictly ascending tagged section reads back |
| Wire.TagsExact | crates/odradek-protocol/src/wire.rs:374-432 | a tagged section reads back if and only if it was written in strictly ascending order, and is refused for its order otherwise |
| Wire.ReadTags | crates/odradek-protocol/src/wire.rs:403-432 | a section that was read is strictly ascending |
| Schema.GuardIsMembership | xtask/src/main.rs:337-352 | a compiled version guard is plain range membership, for every version it was folded over |
| Schema.FoldsExactlyWhenConstant | xtask/src/main.rs:337-352 | a guard is folded to true exactly when it would be true of every valid version |
| Schema.NestedGuardIsMembership | xtask/src/main.rs:328-352 | a nullability guard folded over the versions its field is on the wire is plain membership there |
| Codec.EncFolds | xtask/src/main.rs:1097-1252 | for every schema, folding guards away changes no encoding; what the encoding is, `Layout` says |
| Codec.DecFolds | xtask/src/main.rs:1260-1404 | nor any decoding |
| Layout.EncodingIsLaidOut | xtask/src/main.rs:1088-1252 | for every accepted schema and version of it, exactly the values of its types that are short enough are encoded, and field by field each is on the wire as its own range of flexible versions, or the message's, prescribes: a varint of the length plus one, or a big-endian length; no field the version lacks |
| Layout.MessageIsLaidOut | xtask/src/main.rs:738-777 | the same of a whole message, which at flexible versions, and only there, ends with its tagged section in order |
| Layout.IntIsBigEndian | crates/odradek-protocol/src/wire.rs:64-78 | an integer is written most significant byte first, in two's complement |
| Layout.VarintIsVarint | crates/odradek-protocol/src/wire.rs:91-106 | a varint is groups of seven bits, lowest first, in the shortest form |
| Layout.AbsentFieldReadsDefault | xtask/src/main.rs:1260-1404 | a field its version lacks reads no byte and comes back as its declared default, or as the zero of its type |
| Tags.SortAscends | xtask/src/main.rs:775 | sorting distinct tags puts them in strictly ascending order |
| Tags.RemoveSorted | xtask/src/main.rs:775 | taking a tag out commutes with sorting |
| RoundTrip.WidthIsStatic | xtask/src/main.rs:1112-1207 | whether an encoding is empty depends on schema and version alone |
| RoundTrip.DecodeInvertsEncode | xtask/src/main.rs:1097-1404 | for every accepted schema, version and value that encodes, decoding the encoding with any suffix gives the value back (off-wire fields at their defaults) and exactly that suffix; unless an array on the wire holds structs of no width, and then it fails |
| RoundTrip.TaggedInverse | xtask/src/main.rs:745-777 | known tags are found in the sorted section, and removing them leaves the unknown ones |
| RoundTrip.SectionInverse | xtask/src/main.rs:840-876 | a tagged section reads back and its known tags decode to the fields they came from |
| RoundTrip.WidthlessElementIsRefused | xtask/src/main.rs:1330-1336 | a schema the compiler accepts and a value it encodes that the decoder refuses |
| TagOrder.RoundTripsIff | xtask/src/main.rs:1097-1404 | for every accepted schema, version, value that encodes and suffix: decoding gives the value back, and the suffix, if and only if its tags are proper and no array on the wire holds structs of no width |
| TagOrder.OnlyProperReturns | xtask/src/main.rs:1097-1404 | what decodes from an encoding leaves exactly the suffix, and is the encoded value only if that was proper |
| TagOrder.SectionAscendsIff | xtask/src/main.rs:738-777 | a struct's section is in order if and only if its unknown tags are distinct and none of them is written as a known one; where nothing sorts, if and only if they are in order |
| TagOrder.DisorderIsRefused | xtask/src/main.rs:840-876 | a struct whose section is not in order is written and then refused |
| TagOrder.UnsortedTagsAreRefused | xtask/src/main.rs:738-744 | any flexible struct without tagged fields of its own, its other fields coming back, does so if and only if its unknown tags are in ascending order, and is refused otherwise |
| Reencode.EncodeInvertsDecode | xtask/src/main.rs:1260-1404 | whatever a decoder accepts encodes again at the same version, in no more bytes, and is left as it is by the round trip |
| Reencode.SectionRestored | xtask/src/main.rs:745-777 | a re-encoded section has the same tags in strictly ascending order and the bytes of every unknown tag unchanged |
| Reencode.ReencodingLosesNothing | xtask/src/main.rs:1260-1404 | for every accepted byte string, re-encoding succeeds and decodes to the same value |
| Prefixes.DecodingExtends | xtask/src/main.rs:1260-1404 | for every schema and byte string, what decodes at all decodes to the same value in front of anything else, and leaves that |
| Prefixes.TruncatedIsRefused | xtask/src/main.rs:1260-1404 | so of a byte string that decodes as a whole every shorter prefix is refused |
| Prefixes.AnyByteIsABool | crates/odradek-protocol/src/wire.rs:81-86 | every byte but zero reads as true |
| Connection.DoInv | crates/odradek-client/src/conn.rs:316-440 | every step of every caller and of the reader keeps the invariant on senders, table, replies, writer lock and wire |
| Connection.RunInv | crates/odradek-client/src/conn.rs:316-440 | so every interleaving of every length does |
| Connection.RepliesAreRight | crates/odradek-client/src/conn.rs:536-561 | a request gets at most one reply, ends with the reply it was sent, and a response is the frame carrying its own correlation id |
| Connection.TableHoldsLiveRequests | crates/odradek-client/src/conn.rs:395-401 | the in-flight table holds only requests that still wait or are cleaning up |
| Connection.WireCarriesWholeFrames | crates/odradek-client/src/conn.rs:362-374 | until a frame is cut short the peer can split everything on the wire into exactly the requests written, up to the one being written |
| Connection.LateRequestsAreRefused | crates/odradek-client/src/conn.rs:323-325 | a request whose closed-check follows the closing fails, never enters the table, and stays failed |
| Connection.CutFramesCloseTheConnection | crates/odradek-client/src/conn.rs:417-428 | under every interleaving whoever abandoned a write still has the writer, and no step takes it away, or moves the request on, unless the connection is closed |
| Connection.LeavesItOpenAndCutIff | crates/odradek-client/src/conn.rs:369-373 | a step leaves an open connection with a broken frame on it if and only if it is a write error in the middle of one |
| Connection.OpenIsIntactIff | crates/odradek-client/src/conn.rs:362-428 | under every interleaving the frames on a connection still open are whole if and only if no write failed in the middle of one |
| Connection.WriteErrorLeavesItOpen | crates/odradek-client/src/conn.rs:369-373 | a failed write closes nothing, and the next request is written behind the broken frame |
| Connection.AnswerToTheDepartedFailsEveryone | crates/odradek-client/src/conn.rs:550-555 | the answer to a request that is over is unknown to the table, and from then on, under every interleaving, no request without its reply is sent any but a failure |
| Connection.UnknownFrameFailsIff | crates/odradek-client/src/conn.rs:550-555 | the reader fails the connection over exactly the frames the table does not know |
| Connection.FramesAreAnsweredInOrder | crates/odradek-client/src/conn.rs:536-561 | under every interleaving the frames that found their request are answered each once and in the order of their arrival: with the frame if its header can be read, with that error if it cannot |
| Connection.EndsHaveTheirCause | crates/odradek-client/src/conn.rs:288-374 | under every interleaving a request that ended early had its write fail, was cancelled or timed out as its outcome says, one that was refused found the connection closed, and one that timed out leaves it closed |
| Replies.NoReplyIsLost | crates/odradek-client/src/conn.rs:103-135 | under every interleaving a registered request is in the table, or the reader holds its frame, or somebody is about to tell it that the connection is closed, or it was sent its reply |
| Replies.AnsweredOrInTable | crates/odradek-client/src/conn.rs:128-134 | with the reader gone and nobody failing the others, a waiting request was sent its reply if and only if it is not in the table |
| Replies.StrandedIff | crates/odradek-client/src/conn.rs:323-346 | when the reader fails and nobody gives up, a request that is written and waits is never told if and only if it had passed the closed-check and not yet registered when the table was taken; every other one is told |
| Replies.StrandedForever | crates/odradek-client/src/conn.rs:128-134 | as long as nobody gives up nothing ends such a request |
| Replies.StrandedRequest | crates/odradek-client/src/conn.rs:323-346 | a run that leaves one behind |
| Budget.Limits.AllocBytesFor | crates/odradek-protocol/src/budget.rs:157-162 | never above the ceiling, and at or above floor and scaled input as far as the ceiling lets it |
| Budget.LargerInputsMayAllocateMore | crates/odradek-protocol/src/budget.rs:157-162 | larger inputs never get less |
| Budget.Budget.PushOnto | crates/odradek-protocol/src/budget.rs:238-244 | the vector, the charge and the answer after one push |
| Budget.Budget.GrowFor | crates/odradek-protocol/src/budget.rs:248-273 | charge first, then allocate, then settle against what was allocated |
| Budget.Budget.Grow | crates/odradek-protocol/src/budget.rs:293-298 | the limit is checked against old and new block together |
| Budget.Budget.Settle | crates/odradek-protocol/src/budget.rs:300-308 | the charge is corrected to what the allocator did, or refused |
| Budget.Budget.Charge | crates/odradek-protocol/src/budget.rs:207-212 | charged or refused |
| Budget.Budget.Release | crates/odradek-protocol/src/budget.rs:216-218 | never below zero |
| Budget.Budget.Progress | crates/odradek-protocol/src/budget.rs:281-286 | an element has to consume input |
| Budget.RegrowthFitsBothBlocks | crates/odradek-protocol/src/budget.rs:288-298 | an allowed regrowth fits both blocks beside everything live under the limit |
| Budget.RefusedPushChangesNothing | crates/odradek-protocol/src/budget.rs:238-273 | a push refused by the budget leaves vector and budget as they were |
| Budget.FullPushFitsIff | crates/odradek-protocol/src/budget.rs:238-298 | with an exact allocator a full vector is given twice its room, or its first, if and only if the new block fits the limit beside everything charged, whatever saturates on the way |
| Budget.GrowthKeepsIffSettled | crates/odradek-protocol/src/budget.rs:268-273 | with any allocator the bound holds after a growth if and only if settling was not refused or the surplus was already over-counted |
| Budget.BudgetHoldsIff | crates/odradek-protocol/src/budget.rs:238-318 | however pushes onto any vectors interleave and with whatever allocator, live bytes stay within the charge and the limit if and only if no growth was refused at settling with a surplus beyond what was over-counted |
| Budget.BudgetBoundsAllocation | crates/odradek-protocol/src/budget.rs:238-318 | so with an exact allocator live bytes never exceed what is charged, nor that the limit |
| Budget.GenerousAllocatorDefeatsTheBound | crates/odradek-protocol/src/budget.rs:268-273 | an allocator that rounds up leaves twice the limit live |
| Pool.BlockingPool.PopIdle | crates/odradek-client/src/cluster.rs:556-570 | the most recently released idle connection, or an error for an unknown broker |
| Pool.BlockingPool.CountCheckout | crates/odradek-client/src/cluster.rs:583-591 | one more outstanding, and the peak follows |
| Pool.BlockingPool.Keep | crates/odradek-client/src/cluster.rs:121-132 | kept while the pool is below its peak and its limit |
| Pool.BlockingPool.DropLease | crates/odradek-client/src/cluster.rs:134-141 | one fewer outstanding |
| Pool.BlockingPool.Forget | crates/odradek-client/src/cluster.rs:544-550 | no idle connection is left |
| Pool.RunInv | crates/odradek-client/src/cluster.rs:544-600 | every interleaving keeps the accounts |
| Pool.PoolAccounts | crates/odradek-client/src/cluster.rs:106-141 | outstanding is the number of leases not dropped, so dropping never saturates; within the peak; idle within peak and limit; no connection idle and owned, nor owned twice |
| Pool.ReturnedIsNextOut | crates/odradek-client/src/cluster.rs:121-132 | a connection given back while fewer are idle than the peak and the limit is the next to be handed out; otherwise the idle ones stay as they are |
| Pool.ForgottenNeverReturns | crates/odradek-client/src/cluster.rs:544-550 | a connection idle when its broker was forgotten is never handed out again, however callers interleave from there |
| Pool.StaysWithinIffCalm | crates/odradek-client/src/cluster.rs:121-141 | counting a checkout keeps idle and outstanding within the peak if and only if nothing was idle or the two were below it, keeping a released connection if and only if they were below it, and every other section always does |
| Pool.AlwaysWithinIffAllCalm | crates/odradek-client/src/cluster.rs:106-163 | over every interleaving the accounts stay within the peak if and only if every section found that |
| Pool.SocketsStayWithinIff | crates/odradek-client/src/cluster.rs:583-591 | of connections, a lease between release and drop owning none, only a checkout counted while they are at the peak and leases are not takes the pool past it |
| Pool.PeakBoundsSocketsIff | crates/odradek-client/src/cluster.rs:145-163 | over every interleaving the pool never holds more connections than its peak if and only if no checkout is overtaken so |
| Pool.SequentialPoolNeverOvershoots | crates/odradek-client/src/cluster.rs:145-163 | when the sections of each checkout, return and discard run uninterrupted, idle and leased together never exceed the peak |
| Pool.ConcurrentPoolMayOvershoot | crates/odradek-client/src/cluster.rs:556-592 | used concurrently they may: a run that does |
| Order.BeforeIsLexicographic | crates/odradek-client/src/group.rs:460 | the order of ids is that of the first character in which they differ, a proper prefix first |
| Order.BeforeIsTotal | crates/odradek-client/src/group.rs:460 | of two different member ids one comes first |
| Order.BeforeIsAsymmetric | crates/odradek-client/src/group.rs:460 | and never each before the other |
| Order.BeforeIsTransitive | crates/odradek-client/src/group.rs:460 | and the order is transitive |
| Assignor.RangeAssign | crates/odradek-client/src/group.rs:446-486 | of the assignment returned: every partition of every topic with a subscriber is in the list of exactly one member, a subscriber; no list has any other topic or partition; each is in the order of the topics; and a topic is shared evenly, longer shares first |
| Assignor.AssignTopic | crates/odradek-client/src/group.rs:464-483 | one topic handed out member by member in id order |
| Assignor.EveryPartitionOnce | crates/odradek-client/src/group.rs:446-486 | each partition of a topic with subscribers goes to exactly one member, and it subscribes |
| Assignor.NoPartitionBeyond | crates/odradek-client/src/group.rs:464-483 | and nobody gets a partition the topic does not have |
| Assignor.SharesAreBalanced | crates/odradek-client/src/group.rs:465-477 | shares differ by at most one, longer ones first |
| Assignor.SharesFollowMemberOrder | crates/odradek-client/src/group.rs:460-483 | shares are contiguous in member-id order |
| Assignor.AssignmentIgnoresOrder | crates/odradek-client/src/group.rs:446-486 | the order in which members are listed makes no difference |
| Frame.CheckLen | crates/odradek-protocol/src/frame.rs:70-82 | a negative or oversized length is refused, never clamped |
| Layout.FrameIsLaidOut | crates/odradek-protocol/src/frame.rs:31-59 | a frame is its payload behind the payload's length in four big-endian bytes |
| Frame.Buffer.Frame | crates/odradek-protocol/src/frame.rs:31-59 | appends a whole frame or leaves the buffer exactly as it was |
| Frame.Buffer.TrySplit | crates/odradek-protocol/src/frame.rs:86-96 | the first whole payload is consumed; otherwise nothing is |
| Frame.ChunkingDoesNotMatter | crates/odradek-protocol/src/frame.rs:86-96 | for every byte stream, well formed or not, the cutting into reads changes neither the payloads nor what is left |
| Frame.FramesComeBack | crates/odradek-protocol/src/frame.rs:31-96 | framed payloads drain to exactly those payloads and then to what follows |
| Frame.FramedStreamIsInsensitiveToChunking | crates/odradek-protocol/src/frame.rs:31-96 | payloads within the limit, framed and cut anywhere, come out as they went in with nothing left over |
| Retry.Backoff.NextDelayFrom | crates/odradek-client/src/retry.rs:108-119 | no 64-bit step overflows, and the pause lies between half the base and the lower of twice the base and three times the last pause |
| Retry.RetryLoop | crates/odradek-client/src/retry.rs:49-68 | at most the given attempts, the first success or fatal failure or else the last retried error, and total pause within (attempts - 1) times the longest |

## Left out

Premises and simplifications:

- Atomicity.AllOrNothing: is about honest runs, in which a produce request names its own transactional id's producer, every batch of one record set has the same producer, and offsets fit their type.
- Atomicity.FencingIsPermanent: assumes no epoch wraps in between, and is about requests made under the id in which every write begins with a batch of the old epoch; `Atomicity.FencingIsExact` and `Atomicity.OnlyFirstBatchesAreFenced` cover the rest.
- Delivery.LogIsTheListsInOrder: is about one batch per request, a failed list tried again unchanged, and lists of at most 2^31 - 1 records; `Delivery.SuccessMeansStoredIff` is exact about the second. That the broker takes the session's sequence zero for what is due, and that no list begins past the wrap, are premises which `Delivery.ExactlyOnceIff` shows to be needed. `Delivery.AcknowledgedExactlyOnce` takes the same.
- Broker.ClusterState.ProduceExchange: takes record sets that decode. On one that does not, the source leaves the whole handler unanswered with the earlier partitions already appended to, which is the state of the same request cut before that partition.
- Reading.CommittedReadsAreExact: takes responses that begin with the batch holding the offset and end below the last stable offset, as the protocol prescribes, and batches whose records lie within their offsets in ascending order (`RecordsInOrder`); so does `LiveReads.LiveReadsAreExact`, at the moment of each response.
- ReadCommitted.FilterIsExact: is about responses in which each batch stands at its offset and each finished transaction is followed by its marker; `ReadCommitted.Wire` puts both in, where the reference broker stores neither. What it answers instead is in `StoredReads`.
- RoundTrip.DecodeInvertsEncode: takes unknown tags that are distinct and really unknown (and in order where nothing sorts them), which `TagOrder.RoundTripsIff` shows to be needed, and vectors of at most 2^63 - 1 items and encodings of at most 2^63 - 1 bytes, which is all memory can hold.
- TagOrder.RoundTripsIff: takes vectors and encodings of the same sizes, and schemas whose tagged fields have different tags: the compiler sorts them by tag and does not refuse a tag used twice.
- Reencode.ReencodingLosesNothing: takes inputs of at most 2^63 - 1 bytes.
- Budget.BudgetBoundsAllocation: takes limits of at most 2^63 - 1 bytes, the most an allocation can be; a limit of `usize::MAX` is documented to enforce nothing.
- Producer.Producer.Flush: covers calls that run to completion; deliveries, which the source runs concurrently, are recorded one after another, each after every stamp was taken.
- Producer.Producer.Attempt: refuses record lists longer than `i32::MAX`, which cannot be encoded uncompressed; a compressed list of exactly 2^31 records is not modelled.
- Assignor.RangeAssign: takes unique member ids and non-negative partition counts. What it promises of the whole assignment is about topics listed once each, as they are when its caller takes them from a sorted set (`crates/odradek-client/src/group.rs:223-237`).
- Uncommitted.UncommittedReadsAreExact: takes responses that begin with the batch holding the offset, at whatever point they end, batches at their offsets, and the same `RecordsInOrder`.
- Replies.StrandedIff: takes runs in which, from the reader's failure on, nobody is cancelled or times out.
- Budget.FullPushFitsIff: takes vectors whose room is charged and a limit below `usize::MAX`.
- Connection.RunInv: names requests by correlation ids that are never reused, so the counter's wrap after 2^32 requests is not modelled.

Not modelled:

- Fault injection in the reference broker; membership, topic, quota, authentication and metadata handlers; group offset commits outside transactions; deletion of topics.
- The grouping of a request's partitions by topic, flattened to one list; which node leads a partition, a parameter.
- Batch bytes: a batch is the fields the broker and the client read. Compression is a function from payloads to records; the time of a batch's latest record is left out.
- Transaction markers as stored bytes: the broker takes an offset for a marker and stores nothing, so markers are ghost entries of the history.
- 64-bit offsets, which are unbounded integers here.
- Struct names in schemas are inlined, so recursive structs are not modelled. Parsing of schemas and of default literals, and the text of the generated code: what it does is.
- The budget inside the decoders: they are those of unlimited limits, and the budget is proved on its own. Floating-point fields are their eight bytes.
- Which of several malformed tagged fields is reported is the one with the lowest tag, as in the source; the loop over raw tags is expressed as a walk over the known ones.
- Sockets, TLS, clocks, timers and random numbers: what they answer is a parameter or a step that may happen at any time.
- `enqueue_keyed`, the murmur2 partitioner and the count of buffered records: plumbing around `Enqueue`.
- Connection liveness: that a waiting request is eventually answered, failed or timed out; `Replies.NoReplyIsLost` says who has its reply.
- The shared connection cache, metadata refresh and coordinator discovery.
