# Verified model of postkeys

postkeys serves the Redis protocol from PostgreSQL tables. This project models its hardest parts and
proves what they are for. `dafny verify dfyconfig.toml` checks everything.

Each protocol is a state machine: a `Step` type, `Enabled` and `Do`, runs as sequences of states, an
inductive invariant kept by every kind of step, and theorems about every state of every run. Code that
updates things in place is a class or a loop, proved against a function or relation that is defined
without it.

| part | files | main results |
|---|---|---|
| leader election over one Lease | `LeaderElection` | at most one running leader, in every run, exactly while no two clocks are more than 1 s less 999 ns apart; a leader without faults stays one |
| transactions, locks, retry | `LockOrder`, `Transactions`, `Retry`, `Deadlock`, `Footprint` | serializability in commit order; at most four attempts and one effect; no circular wait exactly when no key is sandwiched between two keys of another hash; the keys locked are the keys touched |
| cleanup of expired keys | `Cleaner` | the commit cleans the current data; a key survives whole exactly when nothing of it is due |
| bit strings | `Bits`, `BitField`, `Bitmap` | 64-bit code refines unbounded integers on an infinite bit string; SETBIT, GETBIT, BITCOUNT and BITPOS agree with it |
| glob matching | `Glob` | sound for all inputs, and complete for all patterns exactly on subjects without `*` |
| wire protocol | `Resp` | round trip with any suffix, framing, pipelines, no early value |
| lists as rows | `ListRows`, `Lists` | every run of list commands equals the run on sequences |
| string cache | `Cache`, `Staleness`, `Backend`, `CachedStore` | a tight bound on staleness; sequential transparency, and exactly which transactions break it at commit |
| subscriptions | `PubSub` | two indices of one relation, reply counts, delivery counts, pub/sub mode |
| HyperLogLog | `HyperLogLog` | registers are maximum ranks over the set of elements added |

Every lemma that Dafny would induct on by itself says `{:induction false}`: in Dafny 4.11 the hypothesis it
adds is not guarded by the type of the sequence it ranges over, and can be contradictory where sequences of
several types are in scope. All induction here is by explicit recursive calls.

`Basics` holds the shared types. Clocks, randomness, the network, the lock hash, the element hash and the
answers of the database server are parameters or nondeterministic steps.

## What the code does not do

Where the code does not have the property one would expect, the code is modelled as it is, a lemma gives
an input, and another says exactly when the property holds.

- Glob: a `*` in the subject is compared with a `*` of the pattern as a literal before the pattern's star
  is tried (`Glob.StarInSubjectFails`).
- Locks: keys are locked in key order but by hash, so colliding hashes can still wait in a circle
  (`Deadlock.SandwichDeadlocks`); the retry loop then takes over.
- Cleanup: INCR, INCRBYFLOAT, APPEND, SETRANGE and SETBIT clear the expiry of a key's meta row but not of
  its string row, so the value is cleaned although the key has no expiry (`Cleaner.ShortLivedRowLosesKey`).
  `Cleaner.CommitKeepsExactly` says which keys survive.
- Cache: inside MULTI/EXEC, ZRANGESTORE over a string, RENAME of a HyperLogLog onto a string and a failing
  COPY REPLACE onto a string take a value away without marking it. If no other command of the transaction
  marks that key (ZINCRBY would, ZADD would not: `CachedStore.CollectAfterZRangeStore`), a GET can still
  see the value (`CachedStore.StaleTransactionShows`), and only then
  (`CachedStore.SessionTransparentExactly`).
- RENAME of a key to itself deletes the key first and then finds nothing to rename
  (`Backend.RenameMovesExactly`).
- Leader election: a clock that is one second less 999 ns ahead of the leader's is still safe, one
  nanosecond more is not (`LeaderElection.ExclusionExactly`).
- Pub/sub: RESET drops a RESP3 client's subscriptions and its protocol version but leaves it in pub/sub
  mode (`PubSub.ResetLeavesModeOn`). It stays there until it subscribes, unsubscribes or disconnects
  (`PubSub.ModeExactly`).
- BITPOS for bit 0 answers 0 on an empty buffer. For a byte range without a zero that ends before the last
  byte it answers the position after its end; an empty range counts, so an end far before the buffer gives
  a negative position (`Bitmap.BitPos`).

## Model

| member | source | states |
|---|---|---|
| LeaderElection.MutualExclusion | internal/leader/election.go:113-247 | In every state of every run, at most one pod whose loop still runs believes it leads, and the Lease names it |
| LeaderElection.GivesUpInTime | internal/leader/election.go:20-39 | A running leader is within 14 s of its last good tick, and no pod's clock sees its Lease as expired |
| LeaderElection.RunKeepsInv | internal/leader/election.go:113-247 | Every state of every run satisfies the invariant |
| LeaderElection.StepPreserves | internal/leader/election.go:133-265 | Every step of the loop, the server and shutdown keeps the invariant |
| LeaderElection.DecidePreserves | internal/leader/election.go:150-176 | The end of a tick (renewed, lost to another, or failed within or past the renew deadline) keeps it |
| LeaderElection.EndTickPreserves | internal/leader/election.go:113-130 | So does scheduling the next tick, whose grid starts after the first tick |
| LeaderElection.ChoosePreserves | internal/leader/election.go:181-247 | So does sending a create, a renewal or a takeover after reading the Lease |
| LeaderElection.ServerHandlesPreserves | internal/leader/election.go:202-246 | So does the server applying a request, late, more than once, or with the reply lost |
| LeaderElection.SurrenderWritePreserves | internal/leader/election.go:252-265 | So does the release written during shutdown |
| LeaderElection.AttemptIsConsistent | internal/leader/election.go:181-247 | What an attempt writes agrees with the version of the Lease it read |
| LeaderElection.LeaderDeadline | internal/leader/election.go:157-176 | Renew deadline, tick grid and tick length together bound a leader's life to 14 s after its last good tick |
| LeaderElection.NoTakeoverWhileProtected | internal/leader/election.go:269-279 | Within that time no pod whose clock is at most 1 s less 999 ns ahead sees the Lease expired, truncation of the time written to microseconds included |
| LeaderElection.ServerKeepsProtected | internal/leader/election.go:202-246 | While a pod relies on the Lease the server can only apply that pod's own renewals |
| LeaderElection.ServerProtectsWriter | internal/leader/election.go:202-246 | An applied request protects the pod that waits for it, even if its reply never comes |
| LeaderElection.ExclusionExactly | internal/leader/election.go:20-39 | For every deployment: no reachable state has two running leaders if and only if no two clocks are further apart than 1 s less 999 ns |
| LeaderElection.TwoLeaders | internal/leader/election.go:150-247 | With clocks further apart than that by one nanosecond or more, two running leaders are reachable |
| LeaderElection.LeaderCanRenew | internal/leader/election.go:133-221 | From every reachable state in which a pod leads and its tick is due, the tick without a fault is enabled step by step; after it the pod leads, its last good tick is this one, and the Lease has the time of its clock at sending |
| LeaderElection.FaultFreeLeaderLeads | internal/leader/election.go:113-221 | In every run, a leader whose own reads and writes meet no fault leads at every later state, whatever the other pods do, and every tick it has decided has renewed the Lease |
| LeaderElection.LeaderCanRelease | internal/leader/election.go:252-265 | From every reachable state in which a pod leads and is idle, stopping without a fault is enabled step by step and leaves the Lease free and the pod off |
| LeaderElection.ReleasedIsTakeable | internal/leader/election.go:252-279 | An attempt of any pod takes a freed Lease over if and only if the pod's clock is past the Lease's duration after 1970 |
| LeaderElection.ReleasedIsTaken | internal/leader/election.go:222-265 | Then a pod that is off can start, take the Lease over and lead |
| LeaderElection.AnyPodCanLead | internal/leader/election.go:187-192 | A state in which a given pod leads is reachable |
| LockOrder.LockSequenceOk | internal/storage/querier.go:165-180 | The locks asked for are those of the keys, each once, strictly ascending |
| LockOrder.LessByFirstDifference | internal/storage/querier.go:165-180 | The order is that of the first character in which two keys differ; a proper prefix comes first |
| Transactions.Serializable | internal/handler/handler.go:347-431 | In every state of every interleaving, the database and the replies are those of running the committed requests one by one in commit order, a request is committed at most once, and exactly when it is not reported as aborted |
| Transactions.AtMostFourAttempts | internal/handler/handler.go:384-431 | No run begins more than four attempts of one request |
| Transactions.RunKeepsInv | internal/handler/handler.go:384-431 | Every state of every run satisfies the invariant |
| Transactions.StepPreserves | internal/handler/handler.go:384-431 | Begin, lock, statement, fault, commit with or without an answer, and giving up all keep it |
| Transactions.CommitStep | internal/storage/transaction.go:38-44 | A commit keeps it: the others' progress stays that of a run alone on the new database |
| Transactions.CommitMissesOthers | internal/storage/querier.go:159-180 | The writes of one running transaction do not meet the keys of another |
| Transactions.OnlyOwnKeysMatter | internal/handler/lua.go:457-473 | What a request does depends only on the values of its own keys, and it writes no others |
| Transactions.FaultStep | internal/handler/handler.go:405-425 | Rolling back after a failed lock, statement or commit, with or without another attempt, keeps the invariant |
| Transactions.SerialIsUnique | internal/handler/handler.go:347-378 | The log determines the serial result |
| Transactions.RunsToIsUnique | internal/handler/handler.go:347-378 | A request run alone has one reply and leaves one database |
| Transactions.CommitIsThere | internal/storage/transaction.go:38-44 | After every commit of every run each key holds what the last statement of the request that wrote it wrote, and is unchanged where none did |
| Transactions.ReadsSeeOwnWrites | internal/handler/handler.go:347-378 | In every state of every run each read of a running request has returned the value the request last wrote to that key before it, or else the committed one |
| Transactions.RetriedExactly | internal/handler/handler.go:384-431 | A fault starts the request again if and only if it is retryable and fewer than four attempts were begun; otherwise the request ends aborted |
| Transactions.ConflictsNeverCommit | internal/handler/handler.go:411-418 | In every run, no committed reply reports a deadlock or serialization failure |
| Transactions.UndisturbedCommits | internal/handler/handler.go:399-430 | From every reachable state a request whose locks are free reaches its acknowledged commit, with the reply and the database it means |
| Transactions.LocksAscend | internal/storage/querier.go:165-180 | In every state of every run the locks a request has taken are those of its least keys |
| Retry.RunTx | internal/handler/handler.go:384-431 | The loop tries again exactly after conflicts, at most three times, and stops at the first attempt that meets nothing; the database is what the others left plus the writes of the last attempt or nothing; an answer that is no error is the body's and every write can be looked up; a confirmed commit is always answered |
| Retry.Turn | internal/handler/handler.go:391-430 | One turn of it, after what the others commit meanwhile |
| Retry.Try | internal/handler/handler.go:399-430 | One attempt: when it conflicts, when its writes are applied, and what it answers |
| Retry.TxStore.Commit | internal/storage/transaction.go:38-44 | A transaction commits at most once; a second end is refused |
| Retry.TxStore.Rollback | internal/storage/transaction.go:47-53 | Rollback after the end does nothing, and never touches the rows |
| Deadlock.DeadlockFreeExactly | internal/storage/querier.go:159-180 | No run ever waits in a circle, if and only if no used key lies between two keys of one hash while having another hash |
| Deadlock.InjectiveNeverDeadlocks | internal/storage/querier.go:154-162 | In particular when the hash is injective on the used keys |
| Deadlock.SandwichDeadlocks | internal/storage/querier.go:159-180 | Otherwise two transactions that keep the order reach a circle |
| Deadlock.WaitersProgress | internal/storage/querier.go:159-180 | Every waiter in every reachable state waits in the end for one that can go on |
| Deadlock.WaiterIsServed | internal/storage/querier.go:159-180 | Then every waiter in every state of every run can be given its lock by grants and by ends of transactions that do not wait; nobody has to be cancelled |
| Deadlock.CleanerTries | internal/storage/storage.go:276-286 | The cleaner never waits, and gets a lock exactly when nobody has it or waits for it |
| Deadlock.ClassesOrdered | internal/storage/querier.go:159-180 | Without a sandwich, two hashes met in one order by some keys are met in that order by all |
| Deadlock.RunKeepsInv | internal/storage/storage.go:275-289 | Ownership, holdings and waiting stay consistent in every run, the try-locking cleaner included |
| Deadlock.NoCircle | internal/storage/querier.go:159-180 | The wait-for graph of such a state has no cycle through holders or waiters ahead in line |
| Deadlock.DelIsDisciplined | internal/storage/querier.go:944-964 | DEL asks in order whichever of its keys exist and however often they repeat |
| Deadlock.UpFrontIsDisciplined | internal/storage/transaction.go:29-35 | EXEC and scripts that lock their keys up front may then ask for them in any order |
| Footprint.DeclaredIsTouched | internal/handler/keys.go:12-88 | For every argument list a handler accepts, the keys declared are exactly the keys it passes to the storage |
| Footprint.ParseMPopHead | internal/handler/handler_ops.go:1712-1749 | Accepts exactly numkeys, that many keys, an allowed direction and at most COUNT n; returns those keys, direction and count, which are what LMPOP and ZMPOP touch |
| Footprint.MSetKeys | internal/handler/keys.go:42-47 | The loop takes every second argument from the first |
| Footprint.NumKeysCommand | internal/handler/handler_ops.go:1752-1857 | The numkeys commands and scripts touch what is declared for them |
| Footprint.StoreCommand | internal/handler/handler_ops.go:3111-3129 | So do the commands with a destination |
| Footprint.ExecStaysInside | internal/handler/handler.go:347-378 | A batch that acts through its commands stays inside the keys EXEC locks, as serializability assumes |
| Footprint.ExecIsDisciplined | internal/handler/handler.go:347-378 | And locks in order, as deadlock freedom assumes |
| Cleaner.CommitCleansCurrentData | internal/storage/storage.go:230-327 | Whatever writers commit in between, the deletions about to be committed are the cleaning of the database as it is then |
| Cleaner.CommitKeepsExactly | internal/storage/storage.go:289-327 | The commit leaves a key whole if and only if it did not lock it, or no time of the key or its rows is at or before now and it has a data row of its kind |
| Cleaner.CommitGoesByTheClock | internal/storage/storage.go:289-312 | In every run, a locked key whose time is at or before now is gone after the commit; one whose times are all later or none, and which has a data row, is as it was |
| Cleaner.CommitRemovesExactly | internal/storage/storage.go:289-327 | Which rows and which meta rows the commit removes, with the comparisons written out |
| Cleaner.DueKeyCanGo | internal/storage/storage.go:230-327 | Whenever nothing is locked, a key whose time has come can be cleaned, and nothing else changes |
| Cleaner.EmptyKeyCanGo | internal/storage/storage.go:314-327 | So can a key without data rows of its kind |
| Cleaner.WriterKeepsLock | internal/storage/storage.go:276-286 | The cleaner passes over a key a writer holds |
| Cleaner.LiveKeysSurvive | internal/storage/storage.go:230-327 | A live key whose rows do not expire before it loses nothing in any step of any run but the commit of a writer that holds its lock |
| Cleaner.CleanLeavesNothing | internal/storage/storage.go:289-327 | No cleaned key has anything left that the first query would list |
| Cleaner.StatementsClean | internal/storage/storage.go:289-327 | The meta, table and orphan statements together are the one-step cleaning |
| Cleaner.TableStatement | internal/storage/storage.go:303-312 | Each table statement adds exactly that table's due rows |
| Cleaner.LastStatement | internal/storage/storage.go:314-325 | The last statement removes exactly the orphaned meta rows |
| Cleaner.StepPreserves | internal/storage/storage.go:230-327 | Every step of the cleaner and of writers that take the lock keeps the invariant |
| Cleaner.ShortLivedRowLosesKey | internal/storage/querier.go:410-446 | Without that provision: after SET with an expiry and INCR, whatever else is stored, a run reaches a commit that takes the key although it has no expiry |
| BitField.BitField | internal/storage/querier.go:556-669 | Replies and final bits of every operation list equal those of unbounded integers on the zero-extended infinite bit string |
| BitField.Turn | internal/storage/querier.go:578-643 | One sub-command, after growing the buffer to its field |
| BitField.ApplyOp | internal/storage/querier.go:593-643 | One operation does |
| BitField.ApplySet | internal/storage/querier.go:611-623 | SET does, in all three overflow modes |
| BitField.ApplyIncrBy | internal/storage/querier.go:625-643 | INCRBY does, also when the 64-bit addition overflows |
| BitField.Grow | internal/storage/querier.go:593-604 | Growing the buffer changes no bit |
| BitField.GetBitField | internal/storage/querier.go:728-745 | Reads the field's value, sign extension and 64-bit wrap-around included |
| BitField.SetBitField | internal/storage/querier.go:748-761 | Writes the field and changes no other bit; bits past the buffer are dropped |
| BitField.StoreThenLoad | internal/storage/querier.go:728-761 | Reading back a stored value gives it wrapped to the width |
| BitField.WrapBitfield | internal/storage/querier.go:687-704 | Computes the wrapped value for every width |
| BitField.WrapSigned | internal/storage/querier.go:691-701 | The signed branch does, for widths 1..63 |
| BitField.WrapLoops | internal/storage/querier.go:694-702 | The two loops end, also where max*2 wraps at width 63 |
| BitField.WrappedIsCongruent | internal/storage/querier.go:687-704 | The wrapped value is in range and congruent modulo 2^width |
| BitField.CongruentIsUnique | internal/storage/querier.go:687-704 | No other value is |
| BitField.BoundsAreExact | internal/storage/querier.go:673-682 | The bounds are the least and greatest values of the encoding |
| BitField.FlagsAreExact | internal/storage/querier.go:625-636 | The overflow tests decide whether the exact sum is out of range |
| BitField.ResolveIncr | internal/storage/querier.go:710-725 | WRAP, SAT and FAIL resolve an increment as exact integers do |
| BitField.ResolveSet | internal/storage/querier.go:710-725 | And a SET, up to what ends in the field |
| BitField.MissedBitsStay | internal/storage/querier.go:556-669 | A bit that every operation of a list reads, is refused on, or has its field away from, is as before |
| BitField.IncrByReplyIsStored | internal/storage/querier.go:625-643 | INCRBY's reply is what the field then holds, and no other bit changed |
| BitField.IncrByAddsToWhatGetReads | internal/storage/querier.go:625-643 | GET, INCRBY, GET from any bits: INCRBY answers the sum of the first GET's answer and the delta where it fits; else WRAP's answer is congruent to it modulo 2^width, SAT's the nearest in range, FAIL's nil; the second GET answers that, or the first answer after nil |
| BitField.SetAnswersWhatGetReads | internal/storage/querier.go:612-623 | GET, SET, GET: SET answers what the first GET did, and the second GET what becomes of the value |
| BitField.IncrByAdds | internal/storage/querier.go:625-643 | Under WRAP, INCRBY a then INCRBY b leaves and answers what INCRBY a+b does |
| BitField.WholeBytesField | internal/storage/querier.go:728-745 | A field of whole bytes is those bytes as a number, most significant first |
| BitField.OthersAreSkipped | internal/storage/querier.go:608-643 | Another kind of sub-command is not answered and changes nothing, wherever it stands |
| BitField.OddWidthIsEight | internal/storage/querier.go:585-591 | A width outside 1..64 means 8 |
| BitField.NeededIsLeast | internal/storage/querier.go:593-604 | The buffer grows to the least number of bytes that holds the field |
| Bitmap.SetBit | internal/storage/querier.go:4117-4166 | Returns the old bit and changes that bit only |
| Bitmap.GetBit | internal/storage/querier.go:4168-4189 | The bit of the zero-extended string |
| Bitmap.SetBitIsBitFieldSet | internal/storage/querier.go:4117-4166 | SETBIT is BITFIELD SET u1 |
| Bitmap.GetBitIsBitFieldGet | internal/storage/querier.go:4168-4189 | GETBIT is BITFIELD GET u1 |
| Bitmap.BitCount | internal/storage/querier.go:4191-4268 | The number of ones between the two ends |
| Bitmap.CountEnds | internal/storage/querier.go:4191-4268 | Inside the string the count is of the ones from start to end; a negative end is the place from the end; a start before the string is its first place, an end past it its last; otherwise 0 |
| Bitmap.CountAll | internal/storage/querier.go:4191-4268 | 0..-1 counts all ones |
| Bitmap.SelectedEnds | internal/storage/querier.go:4211-4254 | The same rules for the bits a pair of ends selects |
| Bitmap.CountBits | internal/storage/querier.go:4211-4238 | The bit loop counts the ones of its range |
| Bitmap.CountBytes | internal/storage/querier.go:4240-4268 | So does the byte loop |
| Bitmap.PopCount | internal/storage/querier.go:4258-4268 | The ones of a byte |
| Bitmap.ByteRangeIsBitRange | internal/storage/querier.go:4191-4268 | Bytes s..e are bits 8s..8e+7 for all signed ends |
| Bitmap.BitPos | internal/storage/querier.go:4364-4446 | For bit 1 the first in range or -1; for bit 0 the exact answer with its two special cases |
| Bitmap.PosInside | internal/storage/querier.go:4405-4446 | Inside the string the answer is the first position with the bit; failing that -1, or for a zero among bytes that end before the last the position after them |
| Bitmap.PosEnds | internal/storage/querier.go:4389-4430 | The rules for the ends, for BITPOS |
| Bitmap.PosInBits | internal/storage/querier.go:4405-4414 | The bit loop finds the first position or -1 |
| Bitmap.PosInBytes | internal/storage/querier.go:4431-4438 | So does the byte loop |
| Glob.GlobMatch | internal/pubsub/hub.go:611-641 | The loop with four indices ends and computes the specification function |
| Glob.Sound | internal/handler/handler_ops.go:1427-1453 | What it accepts matches, for all inputs |
| Glob.Complete | internal/storage/querier.go:3737-3763 | On a subject without a star it accepts exactly the matches |
| Glob.DecidesExactlyStarFreeSubjects | internal/pubsub/hub.go:611-641 | It decides every pattern on a subject if and only if the subject has no star |
| Glob.StarInSubjectFails | internal/pubsub/hub.go:611-641 | For every subject with a star, a matching pattern it rejects |
| Resp.RoundTrip | internal/resp/resp.go:93-220 | Reading a written value followed by anything gives the value, line breaks replaced, and exactly the rest |
| Resp.WireBytes | internal/resp/resp.go:238-322 | The exact bytes of every kind of value: + - : $ * as 43 45 58 36 42, CR LF as 13 10 |
| Resp.DecimalDigits | internal/resp/resp.go:238-322 | Numbers are ASCII digits, most significant first, minus as 45 |
| Resp.LengthLimits | internal/resp/resp.go:159-220 | A bulk string may have 512 MiB and an array 2^20 elements, and not more |
| Resp.PipelineRoundTrip | internal/resp/resp.go:238-320 | Any pipeline reads back value by value with nothing left |
| Resp.NoEarlyValue | internal/resp/resp.go:120-187 | No proper prefix of a written value is taken for a value |
| Resp.FramingIsUnique | internal/resp/resp.go:93-220 | Two written streams that agree start with the same value and rest |
| Resp.DecodeStable | internal/resp/resp.go:93-220 | More input behind a value changes neither it nor its end |
| Resp.IntRoundTrip | internal/resp/resp.go:147-157 | Formatting and parsing a 64-bit integer are inverse |
| Resp.Writer.WriteValue | internal/resp/resp.go:238-267 | Appends the encoding |
| Resp.Writer.WriteArray | internal/resp/resp.go:310-322 | Appends header and elements |
| Resp.Reader.Read | internal/resp/resp.go:93-118 | Consumes exactly one value or fails |
| Resp.Reader.NextLine | internal/resp/resp.go:120-129 | Consumes up to the line feed and fails without CR LF |
| Resp.Reader.ReadBulkBody | internal/resp/resp.go:159-187 | Null, negative, too long, short and complete payloads |
| Resp.Reader.ReadArrayBody | internal/resp/resp.go:189-220 | Null, negative, too long and complete arrays |
| Resp.Reader.ReadElements | internal/resp/resp.go:205-219 | The element loop reads that many values or fails |
| Resp.Reader.ReadElement | internal/resp/resp.go:211-216 | One turn of it |
| Lists.ListStore.ExecuteAll | internal/storage/querier.go:1565-1854 | Every run of list commands gives the replies and lists of the run on sequences |
| Lists.ListStore.Execute | internal/storage/querier.go:1565-1854 | One command does |
| Lists.ListStore.LPush | internal/storage/querier.go:1565-1628 | Prepends the values one by one; another type is refused |
| Lists.ListStore.RPush | internal/storage/querier.go:1630-1691 | Appends them |
| Lists.ListStore.Pop | internal/storage/querier.go:1693-1748 | Takes the first or last element |
| Lists.ListStore.MPop | internal/storage/querier.go:1800-1854 | Takes up to count elements of the first non-empty key |
| Lists.ListStore.LRange | internal/storage/querier.go:1950-2007 | The elements between the two ends |
| Lists.ListStore.LTrim | internal/storage/querier.go:2943-2999 | Keeps the elements between the two ends |
| Lists.ListStore.LRem | internal/storage/querier.go:2838-2885 | Removes the first, last or all equal elements |
| Lists.ListStore.LSet | internal/storage/querier.go:3052-3088 | Replaces one element or reports why not |
| Lists.ListStore.RPopLPush | internal/storage/querier.go:2887-2941 | Moves the last element of one list to the head of another |
| Lists.ListStore.PushHead | internal/storage/querier.go:2921-2935 | Its insert half: a meta row if there is none, then a row below the least idx |
| Lists.ListStore.MinIdx | internal/storage/querier.go:1591-1595 | The least idx, or 0 without rows |
| Lists.ListStore.MaxIdx | internal/storage/querier.go:1655-1659 | The greatest idx, or -1 without rows |
| Lists.SelectSlice | internal/storage/querier.go:1986-2007 | Rows by idx with offset and limit are the slice |
| Lists.DeleteOutside | internal/storage/querier.go:2985-2999 | Deleting by row number leaves the slice |
| Lists.TakeRows | internal/storage/querier.go:1805-1854 | Deleting the n least or greatest rows returns those elements in pop order |
| Lists.TrimRows | internal/storage/querier.go:2954-2999 | LTRIM on rows, and when the whole list goes |
| Lists.RemoveRows | internal/storage/querier.go:2845-2885 | LREM on rows with the number of affected rows |
| Lists.InsertFront | internal/storage/querier.go:1597-1618 | The batch insert of LPUSH hits no existing idx and prepends |
| Lists.InsertBack | internal/storage/querier.go:1661-1681 | The batch insert of RPUSH appends |
| Lists.MoveConserves | internal/storage/querier.go:2887-2941 | The multiset of elements is conserved |
| Lists.MoveRotates | internal/storage/querier.go:2887-2941 | n moves from a key to itself turn the list by n places |
| Lists.FullTurn | internal/storage/querier.go:2887-2941 | As many as it is long give it back |
| Lists.PushThenPop | internal/storage/querier.go:1565-1854 | Popping as many as were pushed at that end returns them, the last first, and restores the list |
| Lists.RangeEnds | internal/storage/querier.go:1965-2007 | LRANGE: inside the list the elements from start to stop; a negative end is the index from the end, for either end and any other end; a start before the head is 0, a stop past the end the last index; otherwise nothing |
| Lists.RangeFromTheEnd | internal/storage/querier.go:1965-2007 | -n..-1 answers the last n elements, 0..n-1 the first n, 0..-1 all |
| Lists.TrimKeepsRange | internal/storage/querier.go:2943-2999 | LTRIM keeps what LRANGE answers for the same ends, and touches no other key |
| Lists.LeftPushIsFirst | internal/storage/querier.go:1565-1628 | LPUSH puts an element where LRANGE 0 0 finds it |
| Lists.RightPushIsLast | internal/storage/querier.go:1630-1691 | RPUSH puts it where LRANGE -1 -1 does |
| Lists.LeftPopTakesFirst | internal/storage/querier.go:1693-1719 | LPOP takes what LRANGE 0 0 answers, and the rest stays |
| Lists.RightPopTakesLast | internal/storage/querier.go:1721-1748 | RPOP takes what LRANGE -1 -1 answers, and the rest stays |
| Lists.MPopIsPops | internal/storage/querier.go:1800-1854 | LMPOP is as many pops of the first list that is not empty as it has elements, up to the count |
| Lists.MPopNil | internal/storage/querier.go:1800-1854 | It answers nil if and only if all its lists are empty or the count is not positive |
| Lists.SetChangesOnePlace | internal/storage/querier.go:3052-3088 | LSET changes the one place LRANGE answers for the same index, from either end; an index is accepted if and only if it is in the list |
| Lists.RemTakesOccurrences | internal/storage/querier.go:2838-2885 | LREM takes the first, the last or all occurrences by the sign of its count, and answers how many |
| ListRows.RepresentsOne | internal/storage/querier.go:1950-2007 | Rows stand for one sequence |
| ListRows.PushAllFront | internal/storage/querier.go:1592-1628 | The batch insert below the least idx prepends in reverse |
| ListRows.PushAllBack | internal/storage/querier.go:1655-1691 | The batch insert above the greatest idx appends |
| ListRows.SliceRepresents | internal/storage/querier.go:2985-2999 | Deleting by row number leaves the slice |
| ListRows.WithoutFirst | internal/storage/querier.go:2838-2885 | Deleting the first n hits by idx removes the first n equal elements |
| ListRows.WithoutLast | internal/storage/querier.go:2838-2885 | And the last n |
| ListRows.RemoveFirstLaw | internal/storage/querier.go:2838-2885 | The first min(n, occurrences) equal elements go: up to some position all of them, and from there on none |
| ListRows.RemoveFirstCount | internal/storage/querier.go:2838-2885 | That many elements go, and the elements that are not equal stay in order |
| ListRows.RemoveLastLaw | internal/storage/querier.go:2838-2885 | The last min(n, occurrences) equal elements go: up to some position none of them, and from there on all |
| ListRows.RemoveLastCount | internal/storage/querier.go:2838-2885 | That many elements go, and the elements that are not equal stay in order |
| Cache.Cache.Get | internal/cache/cache.go:64-78 | Finds an entry until it expires |
| Cache.Cache.Set | internal/cache/cache.go:81-98 | Stores with the TTL unless full, and keeps the size bound |
| Cache.Cache.Delete | internal/cache/cache.go:101-105 | Deletes exactly the key given |
| Cache.Cache.DeleteMulti | internal/cache/cache.go:108-114 | Deletes exactly the keys given |
| Cache.Cache.Flush | internal/cache/cache.go:122-126 | Leaves the cache empty |
| Cache.Cache.Cleanup | internal/cache/cache.go:154-165 | Deletes exactly the expired entries |
| Cache.CleanupIsInvisible | internal/cache/cache.go:154-165 | No later lookup can tell |
| Cache.StoredIsFound | internal/cache/cache.go:64-98 | A value stored is found until its time is over unless the cache is full and the key new; then nothing changes; no other key is affected |
| Staleness.BoundedStaleness | internal/cache/cached_store.go:118-141 | Every answer at t was the backend's at an instant of the run not before t minus the longest delay, minus the TTL if cached; not-found is never from the cache |
| Staleness.BoundIsTight | internal/cache/cache.go:64-98 | The bound is attained |
| Staleness.RunKeepsInv | internal/cache/cached_store.go:118-141 | Every entry and call in every run carries such an instant |
| CachedStore.SessionTransparent | internal/cache/cached_store.go:118-345 | Every session whose transactions leave no key stale at commit gets the same replies with and without the cache, whatever its size, TTL and policy |
| CachedStore.SessionTransparentExactly | internal/cache/caching_tx.go:47-55 | With GETs put in anywhere, a session gets the same replies with and without a cache that takes all keys, if and only if no transaction of it leaves a key stale |
| CachedStore.StaleSessionShows | internal/cache/caching_tx.go:47-55 | Otherwise GETs can be put in so that the replies differ, from every coherent cache |
| CachedStore.CommandTransparent | internal/cache/cached_store.go:118-345 | One command does, and keeps the cache coherent |
| CachedStore.TransactionTransparent | internal/cache/caching_tx.go:29-61 | A transaction that leaves no key stale does, and keeps the cache coherent |
| CachedStore.CoherentExactly | internal/cache/caching_tx.go:47-55 | A transaction keeps every coherent cache coherent if and only if it aborts, or marks every key one of its commands lost |
| CachedStore.UnmarkedExactly | internal/cache/caching_tx.go:29-61 | What a committed transaction does to a value it does not mark: once lost it stays lost, otherwise it is as before |
| CachedStore.InvalidationCovers | internal/cache/cached_store.go:143-345 | A command that succeeds changes no string value it does not invalidate |
| CachedStore.MarksCoverExactly | internal/cache/caching_tx.go:65-388 | Inside a transaction a string value changes unmarked if and only if the command is one of three kinds |
| CachedStore.SuccessLeavesNothingStale | internal/cache/caching_tx.go:29-61 | Commands that succeed and are no ZRANGESTORE are none of them |
| CachedStore.CollectAfterZRangeStore | internal/cache/caching_tx.go:225-388 | After ZRANGESTORE over a string, a collection command on that key leaves the transaction stale if and only if its wrapper does not mark the key (ZADD), or marks it only on a change and there was none; after ZINCRBY it is never stale |
| CachedStore.StaleTransactionShows | internal/storage/querier.go:2557-2658 | After every stale transaction, from every coherent cache, a GET answers with a value that is gone |
| CachedStore.Store.Get | internal/cache/cached_store.go:118-141 | The wrapper's GET is the cached GET |
| CachedStore.Store.Execute | internal/cache/cached_store.go:143-345 | The wrappers run the command and invalidate on success |
| CachedStore.Store.InvalidateAfter | internal/cache/cached_store.go:92-106 | DEL and RENAME as a list, the others key by key: exactly those keys go |
| CachedStore.Store.InvalidateAll | internal/cache/cached_store.go:92-106 | Removes exactly the keys given |
| CachedStore.RunCommands | internal/cache/caching_tx.go:65-388 | The commands of a transaction in order, and the keys they mark |
| CachedStore.Store.ExecuteTx | internal/cache/caching_tx.go:47-55 | A transaction invalidates what it marked when it commits |
| CachedStore.CachingTx.Apply | internal/cache/caching_tx.go:65-388 | A command inside a transaction marks what its wrapper marks if it succeeds, the collection writes HINCRBY, LREM, ZINCRBY, RPOPLPUSH and the like included |
| Backend.SetIsRead | internal/storage/querier.go:276-330 | SET, GETSET and SETNX of a missing key are read back by GET, and no other key changes |
| Backend.MSetIsRead | internal/storage/querier.go:368-408 | MSET sets every pair and nothing else |
| Backend.GetDelIsGone | internal/storage/querier.go:832-857 | GETDEL answers like GET, and the key is gone |
| Backend.UpdateIsRead | internal/storage/querier.go:410-555 | What INCR, APPEND and their like compute from what GET answers is what GET answers next |
| Backend.DelTakesAll | internal/storage/querier.go:944-964 | DEL answers how many distinct keys were there, and exactly they are gone |
| Backend.RenameMovesExactly | internal/storage/querier.go:1155-1188 | RENAME of a string moves its value if and only if the two keys differ |
| Backend.CopyIsRead | internal/storage/querier.go:3942-4115 | COPY of a string to another key copies its value if that key is free or to be replaced |
| Backend.StoreTakesString | internal/storage/querier.go:3232-3262 | A store over a key takes its string away, and no other |
| Backend.ZRangeStoreTakesString | internal/storage/querier.go:2557-2658 | So does ZRANGESTORE |
| Backend.BitOpIsRead | internal/storage/querier.go:4270-4362 | BITOP's result is read back |
| Backend.BitFieldIsRead | internal/storage/querier.go:556-669 | So is BITFIELD's |
| Backend.OthersKeepStrings | internal/storage/querier.go:2771-2792 | Reads, GETEX, PERSIST and the collection commands change no string |
| Backend.WrongTypeIsRefused | internal/storage/querier.go:1209-1224 | The writes that create a collection refuse a key of another kind and change nothing |
| Backend.TxAnswersInOrder | internal/handler/handler.go:347-378 | A transaction answers each command what it answers after the ones before it |
| PubSub.Hub.HandleSubscribe | internal/handler/handler_pubsub.go:23-47 | New subscriptions, mode, and a count of channels and patterns per reply |
| PubSub.Hub.HandleUnsubscribe | internal/handler/handler_pubsub.go:50-88 | What is left, mode, and a count per reply; all channels when none is named |
| PubSub.Hub.HandlePSubscribe | internal/handler/handler_pubsub.go:91-115 | The same for patterns |
| PubSub.Hub.HandlePUnsubscribe | internal/handler/handler_pubsub.go:118-150 | The same for patterns |
| PubSub.Hub.HandleReset | internal/server/server.go:384-399 | Drops the subscriptions, not the mode |
| PubSub.Hub.HandleDisconnect | internal/server/server.go:228-236 | Drops everything of the client |
| PubSub.Hub.HandleHello | internal/server/server.go:296-308 | Sets the protocol version, in pub/sub mode too |
| PubSub.Hub.Execute | internal/server/server.go:296-399 | One command of one client, and its reply |
| PubSub.Hub.ExecuteAll | internal/pubsub/hub.go:120-260 | After any commands of any clients the two indices of each kind are inverse, without empty buckets, and hold what the commands leave; every reply counts what its client had at that moment; subscribed clients are in the mode, and only they if and only if no client was left on by a RESET |
| PubSub.Hub.CountSubscribers | internal/pubsub/hub.go:294-309 | The number of messages a delivery would send |
| PubSub.Hub.Deliver | internal/pubsub/hub.go:557-603 | One message per client for the channel and per matching pattern, none twice |
| PubSub.SubscribedReceives | internal/pubsub/hub.go:120-189 | A client gets the messages of a channel exactly from subscribing to unsubscribing |
| PubSub.PatternReceives | internal/pubsub/hub.go:192-260 | And by each of its patterns that matches |
| PubSub.OthersReceive | internal/pubsub/hub.go:359-389 | A client that disconnects gets nothing more, and no command changes what another client gets |
| PubSub.Add | internal/pubsub/hub.go:120-147 | The subscribe loop keeps the two indices inverse, and its counts |
| PubSub.Remove | internal/pubsub/hub.go:168-189 | The unsubscribe loop keeps them inverse without empty buckets, and its counts |
| PubSub.Leave | internal/pubsub/hub.go:151-189 | No names means all of the client's |
| PubSub.Join | internal/handler/handler_pubsub.go:23-115 | The new index and a count per reply |
| PubSub.Delete | internal/pubsub/hub.go:168-186 | One name: both indices, no empty bucket, and the count left |
| PubSub.CountByPatterns | internal/pubsub/hub.go:299-306 | The pattern loop counts the messages by pattern |
| PubSub.SendDirect | internal/pubsub/hub.go:557-573 | One message per subscriber of the channel |
| PubSub.SendByPatterns | internal/pubsub/hub.go:577-603 | One message per subscriber of each matching pattern |
| PubSub.SubscribedNames | internal/pubsub/hub.go:329-355 | Each of the client's names once |
| PubSub.RemoveClient | internal/pubsub/hub.go:359-389 | Removes one client from both indices |
| PubSub.SubscribedIsInMode | internal/handler/handler_pubsub.go:23-150 | After every command sequence a subscribed client is in pub/sub mode |
| PubSub.ModeIsExactWithoutReset | internal/server/client.go:201-219 | Without RESET a client is in the mode exactly while subscribed |
| PubSub.ModeExactly | internal/server/server.go:384-399 | Over every command sequence, exactly the subscribed clients are in the mode if and only if no client sent RESET in the mode with RESP3 and nothing since that settles it |
| PubSub.StuckExactly | internal/server/server.go:384-399 | The same for one client: when it is in the mode with no subscription |
| PubSub.StepModeExact | internal/server/server.go:384-399 | A command breaks that if and only if it is RESET by a RESP3 client in the mode |
| PubSub.ResetLeavesModeOn | internal/server/server.go:384-399 | After it the client is restricted with no subscription |
| HyperLogLog.HistoryIsSketch | internal/storage/hyperloglog.go:71-131 | After any history of adds and merges each register is the maximum rank over all elements added |
| HyperLogLog.HistoryForgetsOrder | internal/storage/hyperloglog.go:71-131 | Histories that added the same elements end in the same registers |
| HyperLogLog.MergedSketch | internal/storage/hyperloglog.go:166-172 | Merging gives the sketch of the union |
| HyperLogLog.SketchIsUnique | internal/storage/hyperloglog.go:71-131 | A set has one sketch |
| HyperLogLog.RankMeaning | internal/storage/hyperloglog.go:102-121 | The rank is in 1..51 and counts the leading zeros of the upper 50 bits |
| HyperLogLog.RanksAgree | internal/storage/hyperloglog.go:71-131 | Both computations of the rank agree |
| HyperLogLog.HashParts | internal/storage/hyperloglog.go:74-79 | The register index is the low 14 bits and the rank comes from the other 50 |
| HyperLogLog.PartsDetermineHash | internal/storage/hyperloglog.go:74-79 | Together they determine the hash |
| HyperLogLog.Sketch.Add | internal/storage/hyperloglog.go:71-99 | Adds, and is true exactly when the sketch changes |
| HyperLogLog.Sketch.AddHash | internal/storage/hyperloglog.go:124-131 | The same for a hash |
| HyperLogLog.Sketch.Merge | internal/storage/hyperloglog.go:166-172 | Register-wise maximum, in place |
| HyperLogLog.Sketch.AddAll | internal/storage/querier.go:4450-4508 | PFADD gives the sketch of the union and reports any change |

## Left out

- Leader election: pod labels, the HTTP and JSON of the Kubernetes client, and the window during surrender in which the Lease is released but the flag is still set.
- Serializability: plain commands that read before they take the lock, commands that never take it (LPOP, SREM, HDEL, ZREM) and FLUSHDB run only as steps of a locked request; scripts that touch undeclared keys are outside the claim, as is the Lua interpreter.
- Retry.RunTx: backoff times and jitter are not modelled; the context's end during the backoff is one of the outcomes.
- Deadlock freedom: row locks inside the tables and the blocking pops are not modelled.
- Footprint.DeclaredIsTouched: a numkeys near the 64-bit limit is not modelled, because numbers are unbounded there; KEYS, SCAN, RANDOMKEY, DBSIZE and OBJECT are excluded.
- Cleaner: the LIMIT of the first query is any choice of candidates; one cleaner runs at a time, as its own try-lock ensures.
- BitField.BitField: encodings i1..i64 and u1..u63 with offsets from 0; parsing of the encoding, u64, negative offsets and allocation limits are left out.
- Bitmap: BITOP.
- Glob: the character classes that Redis has and this matcher does not.
- Resp: push and map values, buffering and connection errors.
- Lists.ListStore.ExecuteAll: starts from a store without keys of other types; the single commands state what happens for those. LINSERT, LPOS, expiry and 64-bit exhaustion of idx are left out.
- Staleness: the delivery of invalidation broadcasts; any invalidation may happen or be lost at any time.
- CachedStore.SessionTransparent: keys without expiry, so EXPIRE is left out, and FLUSHDB; what collection commands compute is a parameter.
- PubSub: the replies to RESET and HELLO, PostgreSQL notifications, message encoding and send errors.
- HyperLogLog: the hash function and the floating-point estimate.
- Sorted sets, hashes and sets as data types, SCAN cursors, ACL and configuration: they would add members without a harder property.
- Key encoding: keys are text that the storage keeps as it is.
