# WAL bookkeeping state, modelled in Dafny

This project models the per-log-file bookkeeping state of a time-series
database's write-ahead log (`src/wal/state.go`). That state is the
snapshot the log records as a bookmark. It has:

- a format version;
- counters of requests since the last bookmark and since the last index entry;
- the file offset of the bookmark;
- the log file's index;
- a total request count;
- the largest request number issued so far, a `uint32`;
- a map from shard id to the largest point sequence number applied to that shard;
- a map from server id to the request number that server last acknowledged.

The Go `state` struct becomes the class `Wal.State`, with one field per struct
field. Its methods mutate the object in place, as the Go methods mutate their
receiver. Go maps are references. Each map is therefore its own small object
(`Wal.ShardSequenceMap` and `Wal.ServerCommitMap`, each holding a Dafny `map`).
So when `ContinueFromState` makes two states share their maps, a later write
through either state is visible through both, and the contracts say so.

Modules:

- `GoInts` (`go_ints.dfy`): the Go integer widths as newtypes, and `Increment`,
  which is Go's `++` on a `uint32`, wrapping from `MaxUint32` to 0.
- `Recovery` (`recovery.dfy`): replays of log records, stated on values.
  `PeakSequence` is the running maximum that `recover`'s loop computes.
  `Replay` folds one record into the pair (request counter, shard map).
  `ReplayAll` replays a log tail in file order. The lemmas cover the effect of
  one record, idempotence, commutation, the characterisation of a replayed tail
  as a maximum, and independence from order and duplication.
- `Numbering` (`numbering.dfy`): the numbers that successive
  `getNextRequestNumber` calls hand out. They are consecutive below the wrap,
  distinct within one cycle of 2^32 calls, and repeat after it.
- `Wal` (`state.dfy`): the state class and its methods, and the low-water-mark
  predicate.
- `Scenarios` (`scenarios.dfy`): client methods that use only the contracts.
  They show that a fresh state numbers from 1 and that a successor continues it
  and shares the maps. They replay the commit sequence A=5, B=3, then A=10,
  then B=12, where the low-water mark goes 3, 3, 10. They also show that
  replaying a record twice changes nothing.

A replayed record is abstracted as `ReplayRequest(requestNumber, shardId, points)`.
Each point carries an optional sequence number. An unset sequence number reads
as 0, which is what the protobuf getter returns.

Where the design description and the code disagree, the model follows the code:

- The design says request numbers are never reused. The code's `uint32` counter
  wraps silently at `MaxUint32`. `Numbering.IssuedRepeats` states the reuse
  after 2^32 calls.
- The design says the counter never decreases across continuation.
  `continueFromState` copies the predecessor's counter unconditionally, so the
  receiver's counter can go down. `ContinueFromState` states the exact copy.
- The design lists per-server acknowledgements as non-decreasing. The code
  overwrites the entry (last write wins), and so does `CommitRequestNumber`.
- The design says the low-water mark never exceeds the largest request number.
  The code does not maintain this. An empty server map yields `MaxUint32`, and
  any acknowledged number is accepted. The model states no such invariant.

## Model

| member | source | states |
|---|---|---|
| `GoInts.Increment` | src/wal/state.go:62 | `++` on a `uint32` adds one below `MaxUint32` and wraps `MaxUint32` to 0 |
| `Numbering.IssuedAt` | src/wal/state.go:61-64 | the i-th of k successive calls returns the starting counter plus i+1, modulo 2^32 |
| `Numbering.IssuedConsecutive` | src/wal/state.go:61-64 | with no wrap in range, successive calls return start+1, start+2, … (from a fresh counter: 1, 2, …), each exactly one more than the previous |
| `Numbering.IssuedDistinct` | src/wal/state.go:61-64 | no number is handed out twice within 2^32 successive calls |
| `Numbering.IssuedRepeats` | src/wal/state.go:62 | the (2^32+1)-th call repeats the first number, because the counter wraps |
| `Recovery.PeakSequenceIsMaximum` | src/wal/state.go:46-52 | the loop's result is at least the old shard entry and every point's sequence number, and equals one of them: it is their maximum |
| `Recovery.PeakSequenceSplit` | src/wal/state.go:46-52 | the loop's result is the larger of the old entry and the points' own maximum |
| `Recovery.PeakSequenceIdempotent` | src/wal/state.go:46-54 | running the loop again over the same points leaves the result unchanged |
| `Recovery.PeakSequenceCommutes` | src/wal/state.go:46-54 | folding two point lists into a shard entry gives the same value in either order |
| `Recovery.ReplayEffect` | src/wal/state.go:41-55 | after one record, the counter is the larger of the old counter and the request number. The record's shard is present, even with no points, and holds the maximum of its old entry (0 if absent) and all the record's sequence numbers. Every other shard entry is unchanged |
| `Recovery.ReplayIdempotent` | src/wal/state.go:41-55 | replaying the same record twice equals replaying it once |
| `Recovery.ReplayCommutes` | src/wal/state.go:41-55 | two records replayed in either order give the same state |
| `Recovery.ReplayAllIsPeak` | src/wal/state.go:41-55 | after a log tail, the counter is the largest of the old counter and all request numbers. The shards present are the old ones plus those written to. Each shard holds the maximum of its old entry and every sequence number ever written to it |
| `Recovery.ReplayAllOrderIndependent` | src/wal/state.go:41-55 | two log tails with the same records, in any order and with any repetition, replay to the same state |
| `Recovery.ReplayAllAppend` | src/wal/state.go:41-55 | replaying two stretches one after the other equals replaying their concatenation |
| `Recovery.ReplayAllAgain` | src/wal/state.go:41-55 | replaying an already-applied log tail again changes nothing |
| `Wal.LowWaterMarkUnique` | src/wal/state.go:84-92 | the low-water-mark characterisation (sentinel when empty, lower bound, attained) pins down one value |
| `Wal.State.NewState` | src/wal/state.go:29-39 | a new state has version `CURRENT_VERSION` (1), a fresh empty index, counter 0, and two fresh empty maps that are present, not absent. Every other field is zero |
| `Wal.State.Recover` | src/wal/state.go:41-55 | the new (counter, shard map) is `Replay` of the old one and the record. The counter does not decrease. The server map and every other field are unchanged |
| `Wal.State.SetFileOffset` | src/wal/state.go:57-59 | sets the file offset and changes nothing else |
| `Wal.State.GetNextRequestNumber` | src/wal/state.go:61-64 | the counter becomes `Increment` of its old value, the new value is returned, and no other field changes |
| `Wal.State.ContinueFromState` | src/wal/state.go:66-70 | the receiver takes the predecessor's counter and the very same two map objects, so the maps are aliased. Version, offset, index and the request counters are unchanged |
| `Wal.State.GetCurrentSequenceNumber` | src/wal/state.go:72-74 | returns the stored entry for a known shard and 0 for an unseen one, without changing state |
| `Wal.State.SetCurrentSequenceNumber` | src/wal/state.go:76-78 | overwrites the shard's entry with the given value, with no maximum taken. Other shards are unchanged |
| `Wal.State.CommitRequestNumber` | src/wal/state.go:80-82 | sets the server's entry to exactly the given number (last write wins, possibly lower). Other servers and all other fields are unchanged |
| `Wal.State.LowestCommitedRequestNumber` | src/wal/state.go:84-92 | returns `MaxUint32` when no server has acknowledged. Otherwise it returns a value no greater than any acknowledgement and equal to one of them: the minimum. State is unchanged |

## Left out

- `write` / `read` (src/wal/state.go:94-100): they hand the state to Go's reflective `encoding/gob` encoder and an `io.Writer` / `io.Reader`. The byte layout belongs to that library, which is not part of this model, so no encoding and no round trip is modelled.
- The index: the `index` and `indexEntry` types are defined outside `state.go`. `IndexEntry` is an opaque type, and only the empty index that `newState` builds is modelled. Resume-point lookup is not part of this model.
- `replayRequest`, the protobuf `Series`/`Point` types and `GetSequenceNumber` are defined elsewhere. They are abstracted as described above, with the series always present. A record with a nil request or series, which would panic in Go, is not modelled.
- `globalState` (src/wal/state.go:13-14) is an empty struct with no behaviour.
- Nil maps: Go would panic when writing to a nil map, for instance in a state decoded without maps. In the model the map objects always exist, as `newState` creates them.
- Go `int` fields (`RequestsSinceLastBookmark`, `TotalNumberOfRequests`) are modelled as 64-bit. No method here changes them.
- Concurrency: the source has no locking, and the model is single-threaded.
- src/cluster/user_test.go tests user and credential types whose definitions are not part of this model. It rests on password-hash library calls.
- Segment rotation, file deletion, the replay driver that decodes records from the file, and bookmark scheduling do not appear in `state.go`.
