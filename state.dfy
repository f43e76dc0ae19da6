/** The per-log-file bookkeeping state of the write-ahead log (src/wal/state.go):
    the request-number counter, the per-shard sequence-number high-water
    marks, the per-server acknowledged request numbers, and the counters,
    file offset and index that a bookmark records. */
module Wal {
  import opened GoInts
  import opened Recovery

  /** The bookmark format version a new state carries. */
  const CURRENT_VERSION: uint8 := 1

  /** An entry of a log file's index. Its layout is not part of this model. */
  type IndexEntry

  class Index {
    var entries: seq<IndexEntry>

    constructor ()
      ensures entries == []
    {
      entries := [];
    }
  }

  /** A Go `map[uint32]uint64` from shard id to sequence number. A Go map is a
      reference: two states may share one. */
  class ShardSequenceMap {
    var entries: map<uint32, uint64>

    constructor ()
      ensures entries == map[]
    {
      entries := map[];
    }
  }

  /** A Go `map[uint32]uint32` from server id to its last acknowledged request number. */
  class ServerCommitMap {
    var entries: map<uint32, uint32>

    constructor ()
      ensures entries == map[]
    {
      entries := map[];
    }
  }

  /** `r` is the low-water mark of the acknowledgements `m`: the smallest
      acknowledged request number, or MaxUint32 when no server has acknowledged. */
  ghost predicate IsLowWaterMark(m: map<uint32, uint32>, r: uint32)
  {
    && (m == map[] ==> r == MaxUint32)
    && (forall server :: server in m ==> r <= m[server])
    && (m != map[] ==> exists server :: server in m && m[server] == r)
  }

  /** At most one value is the low-water mark of a given set of acknowledgements. */
  lemma LowWaterMarkUnique(m: map<uint32, uint32>, r: uint32, r': uint32)
    requires IsLowWaterMark(m, r) && IsLowWaterMark(m, r')
    ensures r == r'
  {
    if m != map[] {
      var s :| s in m && m[s] == r;
      var s' :| s' in m && m[s'] == r';
    }
  }

  class State {
    var version: uint8
    /** Go `int`, 64 bits wide on the platforms the database targets. */
    var requestsSinceLastBookmark: int64
    var requestsSinceLastIndex: uint32
    /** The file offset at which this bookmark was created. */
    var fileOffset: int64
    var index: Index
    var totalNumberOfRequests: int64
    var largestRequestNumber: uint32
    var shardLastSequenceNumber: ShardSequenceMap
    var serverLastRequestNumber: ServerCommitMap

    /** The part of the state that replaying the log rebuilds. */
    ghost function ReplayView(): Progress
      reads this, shardLastSequenceNumber
    {
      Progress(largestRequestNumber, shardLastSequenceNumber.entries)
    }

    /** A fresh state for a new log file: current version, an empty index,
        counter 0, both maps present and empty, all other fields zero. */
    constructor NewState()
      ensures version == CURRENT_VERSION
      ensures fresh(index) && index.entries == []
      ensures largestRequestNumber == 0
      ensures fresh(shardLastSequenceNumber) && shardLastSequenceNumber.entries == map[]
      ensures fresh(serverLastRequestNumber) && serverLastRequestNumber.entries == map[]
      ensures requestsSinceLastBookmark == 0 && requestsSinceLastIndex == 0
      ensures fileOffset == 0 && totalNumberOfRequests == 0
    {
      version := CURRENT_VERSION;
      requestsSinceLastBookmark := 0;
      requestsSinceLastIndex := 0;
      fileOffset := 0;
      index := new Index();
      totalNumberOfRequests := 0;
      largestRequestNumber := 0;
      shardLastSequenceNumber := new ShardSequenceMap();
      serverLastRequestNumber := new ServerCommitMap();
    }

    /** Folds one replayed log record into the state. The frame leaves every
        other field, and the server map, as they were. */
    method Recover(replay: ReplayRequest)
      modifies this`largestRequestNumber, shardLastSequenceNumber
      ensures ReplayView() == Replay(old(ReplayView()), replay)
      ensures largestRequestNumber >= old(largestRequestNumber)
      ensures serverLastRequestNumber.entries == old(serverLastRequestNumber.entries)
    {
      if largestRequestNumber < replay.requestNumber {
        largestRequestNumber := replay.requestNumber;
      }

      ghost var init := ShardSequence(shardLastSequenceNumber.entries, replay.shardId);
      var lastSequenceNumber := if replay.shardId in shardLastSequenceNumber.entries
                                then shardLastSequenceNumber.entries[replay.shardId] else 0;

      var points := replay.points;
      var i := 0;
      while i < |points|
        invariant 0 <= i <= |points|
        invariant lastSequenceNumber == PeakSequence(init, points[..i])
      {
        assert points[..i + 1][..i] == points[..i];
        var s := SequenceNumber(points[i]);
        if s > lastSequenceNumber {
          lastSequenceNumber := s;
        }
        i := i + 1;
      }
      assert points[..i] == points;

      shardLastSequenceNumber.entries := shardLastSequenceNumber.entries[replay.shardId := lastSequenceNumber];
    }

    method SetFileOffset(offset: int64)
      modifies this`fileOffset
      ensures fileOffset == offset
    {
      fileOffset := offset;
    }

    /** Issues the next request number: the counter goes up by one, wrapping
        from MaxUint32 to 0 as Go's `uint32` does, and the new value is returned. */
    method GetNextRequestNumber() returns (n: uint32)
      modifies this`largestRequestNumber
      ensures largestRequestNumber == Increment(old(largestRequestNumber))
      ensures n == largestRequestNumber
    {
      largestRequestNumber := Increment(largestRequestNumber);
      n := largestRequestNumber;
    }

    /** Carries a predecessor's counter and maps over. The maps are shared,
        not copied: later writes through either state are seen by both. */
    method ContinueFromState(prior: State)
      modifies this`largestRequestNumber, this`shardLastSequenceNumber, this`serverLastRequestNumber
      ensures largestRequestNumber == old(prior.largestRequestNumber)
      ensures shardLastSequenceNumber == old(prior.shardLastSequenceNumber)
      ensures serverLastRequestNumber == old(prior.serverLastRequestNumber)
    {
      largestRequestNumber := prior.largestRequestNumber;
      shardLastSequenceNumber := prior.shardLastSequenceNumber;
      serverLastRequestNumber := prior.serverLastRequestNumber;
    }

    /** The shard's sequence number high-water mark, 0 for an unseen shard. */
    method GetCurrentSequenceNumber(shardId: uint32) returns (n: uint64)
      ensures shardId in shardLastSequenceNumber.entries ==> n == shardLastSequenceNumber.entries[shardId]
      ensures shardId !in shardLastSequenceNumber.entries ==> n == 0
    {
      n := if shardId in shardLastSequenceNumber.entries then shardLastSequenceNumber.entries[shardId] else 0;
    }

    /** Overwrites the shard's entry, whether or not the new value is larger. */
    method SetCurrentSequenceNumber(shardId: uint32, sequenceNumber: uint64)
      modifies shardLastSequenceNumber
      ensures shardLastSequenceNumber.entries == old(shardLastSequenceNumber.entries)[shardId := sequenceNumber]
    {
      shardLastSequenceNumber.entries := shardLastSequenceNumber.entries[shardId := sequenceNumber];
    }

    /** Records a server's acknowledgement; the last report wins, even a lower one. */
    method CommitRequestNumber(serverId: uint32, requestNumber: uint32)
      modifies serverLastRequestNumber
      ensures serverLastRequestNumber.entries == old(serverLastRequestNumber.entries)[serverId := requestNumber]
    {
      serverLastRequestNumber.entries := serverLastRequestNumber.entries[serverId := requestNumber];
    }

    /** The low-water mark below which the log may be discarded. */
    method LowestCommitedRequestNumber() returns (requestNumber: uint32)
      ensures IsLowWaterMark(serverLastRequestNumber.entries, requestNumber)
    {
      var m := serverLastRequestNumber.entries;
      requestNumber := MaxUint32;
      var remaining := m.Keys;
      while remaining != {}
        invariant remaining <= m.Keys
        invariant forall server :: server in m && server !in remaining ==> requestNumber <= m[server]
        invariant requestNumber == MaxUint32
                  || exists server :: server in m && server !in remaining && m[server] == requestNumber
        decreases remaining
      {
        var server :| server in remaining;
        var number := m[server];
        if number < requestNumber {
          requestNumber := number;
        }
        remaining := remaining - {server};
      }
      if m != map[] && requestNumber == MaxUint32 {
        var server :| server in m;
        assert m[server] == requestNumber;
      }
    }
  }
}
