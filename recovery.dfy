/** What `recover` (src/wal/state.go) does to the state, stated on values:
    the request-number high-water mark and the per-shard sequence-number
    high-water marks, and how replaying log records changes them. */
module Recovery {
  import opened GoInts

  datatype Option<T> = None | Some(value: T)

  /** A data point of a replayed write. Only its optional sequence number
      matters to the WAL state. */
  datatype Point = Point(sequenceNumber: Option<uint64>)

  /** A decoded log record: the request number it was given, the shard it
      writes to and the points of its series. */
  datatype ReplayRequest = ReplayRequest(requestNumber: uint32, shardId: uint32, points: seq<Point>)

  /** The part of the WAL state that replay rebuilds. */
  datatype Progress = Progress(largestRequestNumber: uint32, shardSequence: map<uint32, uint64>)

  /** The protobuf getter: a point without a sequence number reads as 0. */
  function SequenceNumber(p: Point): uint64
  {
    match p.sequenceNumber
    case Some(n) => n
    case None => 0
  }

  /** Indexing a Go map at a missing key gives the zero value. */
  function ShardSequence(m: map<uint32, uint64>, shard: uint32): uint64
  {
    if shard in m then m[shard] else 0
  }

  function Max32(a: uint32, b: uint32): uint32
  {
    if a < b then b else a
  }

  function Max64(a: uint64, b: uint64): uint64
  {
    if a < b then b else a
  }

  /** The running value of recover's loop: it starts at `init` and is replaced
      by each point's sequence number that is larger, in order. */
  function PeakSequence(init: uint64, points: seq<Point>): uint64
    decreases |points|
  {
    if points == [] then init
    else
      var last := PeakSequence(init, points[..|points| - 1]);
      var s := SequenceNumber(points[|points| - 1]);
      if s > last then s else last
  }

  /** One replayed record folded into the progress: the counter is raised to
      the record's number, and the record's shard gets the peak of its old
      entry and the record's points. */
  function Replay(p: Progress, r: ReplayRequest): Progress
  {
    Progress(Max32(p.largestRequestNumber, r.requestNumber),
             p.shardSequence[r.shardId := PeakSequence(ShardSequence(p.shardSequence, r.shardId), r.points)])
  }

  /** A log tail replayed in file order. */
  function ReplayAll(p: Progress, rs: seq<ReplayRequest>): Progress
    decreases |rs|
  {
    if rs == [] then p else Replay(ReplayAll(p, rs[..|rs| - 1]), rs[|rs| - 1])
  }

  // ---------------------------------------------------------------------
  // The running maximum over a record's points

  /** The loop's result is the maximum of the old entry and every point. */
  lemma {:induction false} PeakSequenceIsMaximum(init: uint64, points: seq<Point>)
    ensures init <= PeakSequence(init, points)
    ensures forall j :: 0 <= j < |points| ==> SequenceNumber(points[j]) <= PeakSequence(init, points)
    ensures PeakSequence(init, points) == init
            || exists j :: 0 <= j < |points| && SequenceNumber(points[j]) == PeakSequence(init, points)
  {
    if points != [] {
      var n := |points| - 1;
      var pre := points[..n];
      PeakSequenceIsMaximum(init, pre);
      assert forall j :: 0 <= j < n ==> pre[j] == points[j];
    }
  }

  /** The old entry only enters the running maximum once, at the end. */
  lemma {:induction false} PeakSequenceSplit(init: uint64, points: seq<Point>)
    ensures PeakSequence(init, points) == Max64(init, PeakSequence(0, points))
  {
    if points != [] {
      PeakSequenceSplit(init, points[..|points| - 1]);
    }
  }

  /** Taking the maximum over the same points twice changes nothing. */
  lemma PeakSequenceIdempotent(init: uint64, points: seq<Point>)
    ensures PeakSequence(PeakSequence(init, points), points) == PeakSequence(init, points)
  {
    PeakSequenceSplit(init, points);
    PeakSequenceSplit(PeakSequence(init, points), points);
  }

  /** The maxima over two point lists may be taken in either order. */
  lemma PeakSequenceCommutes(init: uint64, xs: seq<Point>, ys: seq<Point>)
    ensures PeakSequence(PeakSequence(init, xs), ys) == PeakSequence(PeakSequence(init, ys), xs)
  {
    PeakSequenceSplit(init, xs);
    PeakSequenceSplit(init, ys);
    PeakSequenceSplit(PeakSequence(init, xs), ys);
    PeakSequenceSplit(PeakSequence(init, ys), xs);
  }

  // ---------------------------------------------------------------------
  // One replayed record

  /** What replaying one record changes: the counter becomes the larger of
      its old value and the record's number; the record's shard is present
      afterwards (even for a record without points) and holds the maximum of
      its old entry (0 when absent) and the record's sequence numbers; every
      other shard keeps its entry. */
  lemma ReplayEffect(p: Progress, r: ReplayRequest)
    ensures Replay(p, r).largestRequestNumber >= p.largestRequestNumber
    ensures Replay(p, r).largestRequestNumber >= r.requestNumber
    ensures Replay(p, r).largestRequestNumber == p.largestRequestNumber
            || Replay(p, r).largestRequestNumber == r.requestNumber
    ensures Replay(p, r).shardSequence.Keys == p.shardSequence.Keys + {r.shardId}
    ensures forall k :: k in p.shardSequence && k != r.shardId ==>
              Replay(p, r).shardSequence[k] == p.shardSequence[k]
    ensures ShardSequence(p.shardSequence, r.shardId) <= Replay(p, r).shardSequence[r.shardId]
    ensures forall j :: 0 <= j < |r.points| ==>
              SequenceNumber(r.points[j]) <= Replay(p, r).shardSequence[r.shardId]
    ensures Replay(p, r).shardSequence[r.shardId] == ShardSequence(p.shardSequence, r.shardId)
            || exists j :: 0 <= j < |r.points| && SequenceNumber(r.points[j]) == Replay(p, r).shardSequence[r.shardId]
  {
    PeakSequenceIsMaximum(ShardSequence(p.shardSequence, r.shardId), r.points);
  }

  /** Replaying the same record twice gives the state of replaying it once. */
  lemma ReplayIdempotent(p: Progress, r: ReplayRequest)
    ensures Replay(Replay(p, r), r) == Replay(p, r)
  {
    PeakSequenceIdempotent(ShardSequence(p.shardSequence, r.shardId), r.points);
  }

  /** Two records may be replayed in either order. */
  lemma ReplayCommutes(p: Progress, a: ReplayRequest, b: ReplayRequest)
    ensures Replay(Replay(p, a), b) == Replay(Replay(p, b), a)
  {
    var pa, pb := Replay(p, a), Replay(p, b);
    if a.shardId == b.shardId {
      PeakSequenceCommutes(ShardSequence(p.shardSequence, a.shardId), a.points, b.points);
    } else {
      assert ShardSequence(pa.shardSequence, b.shardId) == ShardSequence(p.shardSequence, b.shardId);
      assert ShardSequence(pb.shardSequence, a.shardId) == ShardSequence(p.shardSequence, a.shardId);
    }
  }

  // ---------------------------------------------------------------------
  // A whole log tail

  /** `v` is the maximum of `init` and the sequence numbers of every point
      that the records `rs` write to `shard`. */
  ghost predicate IsShardPeak(v: uint64, init: uint64, rs: seq<ReplayRequest>, shard: uint32)
  {
    && init <= v
    && (forall r, pt :: r in rs && r.shardId == shard && pt in r.points ==> SequenceNumber(pt) <= v)
    && (v == init || exists r, pt :: r in rs && r.shardId == shard && pt in r.points && SequenceNumber(pt) == v)
  }

  /** `v` is the maximum of `init` and the request numbers of the records `rs`. */
  ghost predicate IsHighestRequest(v: uint32, init: uint32, rs: seq<ReplayRequest>)
  {
    && init <= v
    && (forall r :: r in rs ==> r.requestNumber <= v)
    && (v == init || exists r :: r in rs && r.requestNumber == v)
  }

  /** After replaying `rs` the counter is the largest request number seen,
      the shards present are the old ones and those `rs` write to, and every
      shard holds the maximum of its old entry and of all sequence numbers
      ever written to it. */
  lemma {:induction false} ReplayAllIsPeak(p: Progress, rs: seq<ReplayRequest>)
    ensures IsHighestRequest(ReplayAll(p, rs).largestRequestNumber, p.largestRequestNumber, rs)
    ensures forall k :: k in ReplayAll(p, rs).shardSequence <==>
              (k in p.shardSequence || exists r :: r in rs && r.shardId == k)
    ensures forall k :: IsShardPeak(ShardSequence(ReplayAll(p, rs).shardSequence, k),
                                    ShardSequence(p.shardSequence, k), rs, k)
  {
    if rs != [] {
      var pre, last := rs[..|rs| - 1], rs[|rs| - 1];
      assert rs == pre + [last];
      assert forall r :: r in rs <==> r in pre || r == last;
      ReplayAllIsPeak(p, pre);
      var q := ReplayAll(p, pre);
      ReplayEffect(q, last);
      forall k
        ensures IsShardPeak(ShardSequence(ReplayAll(p, rs).shardSequence, k),
                            ShardSequence(p.shardSequence, k), rs, k)
      {
        ShardPeakStep(q, last, p, pre, rs, k);
      }
    }
  }

  /** The inductive step of ReplayAllIsPeak for one shard. */
  lemma ShardPeakStep(q: Progress, last: ReplayRequest, p: Progress,
                      pre: seq<ReplayRequest>, rs: seq<ReplayRequest>, k: uint32)
    requires forall r :: r in rs <==> r in pre || r == last
    requires IsShardPeak(ShardSequence(q.shardSequence, k), ShardSequence(p.shardSequence, k), pre, k)
    ensures IsShardPeak(ShardSequence(Replay(q, last).shardSequence, k), ShardSequence(p.shardSequence, k), rs, k)
  {
    var old_ := ShardSequence(q.shardSequence, k);
    var new_ := ShardSequence(Replay(q, last).shardSequence, k);
    if k == last.shardId {
      PeakSequenceIsMaximum(old_, last.points);
      assert new_ == PeakSequence(old_, last.points);
      forall pt | pt in last.points ensures SequenceNumber(pt) <= new_ {
        var j :| 0 <= j < |last.points| && last.points[j] == pt;
      }
      if new_ != old_ {
        var j :| 0 <= j < |last.points| && SequenceNumber(last.points[j]) == new_;
        assert last in rs && last.points[j] in last.points;
      }
    } else {
      assert new_ == old_;
    }
  }

  /** A maximum taken over the same records is the same, whatever their order
      and however often they repeat. */
  lemma PeaksAgree(p: Progress, rs: seq<ReplayRequest>, qs: seq<ReplayRequest>, k: uint32, v: uint64, w: uint64)
    requires forall r :: r in rs <==> r in qs
    requires IsShardPeak(v, ShardSequence(p.shardSequence, k), rs, k)
    requires IsShardPeak(w, ShardSequence(p.shardSequence, k), qs, k)
    ensures v == w
  {
  }

  /** Replay depends only on which records are replayed: reordering the log
      tail or replaying records again yields the same progress. */
  lemma ReplayAllOrderIndependent(p: Progress, rs: seq<ReplayRequest>, qs: seq<ReplayRequest>)
    requires forall r :: r in rs <==> r in qs
    ensures ReplayAll(p, rs) == ReplayAll(p, qs)
  {
    ReplayAllIsPeak(p, rs);
    ReplayAllIsPeak(p, qs);
    var a, b := ReplayAll(p, rs), ReplayAll(p, qs);
    assert a.shardSequence.Keys == b.shardSequence.Keys;
    forall k | k in a.shardSequence ensures a.shardSequence[k] == b.shardSequence[k] {
      PeaksAgree(p, rs, qs, k, ShardSequence(a.shardSequence, k), ShardSequence(b.shardSequence, k));
    }
  }

  /** Replaying two consecutive stretches of log is replaying their concatenation. */
  lemma {:induction false} ReplayAllAppend(p: Progress, rs: seq<ReplayRequest>, qs: seq<ReplayRequest>)
    ensures ReplayAll(ReplayAll(p, rs), qs) == ReplayAll(p, rs + qs)
    decreases |qs|
  {
    if qs != [] {
      assert (rs + qs)[..|rs + qs| - 1] == rs + qs[..|qs| - 1];
      ReplayAllAppend(p, rs, qs[..|qs| - 1]);
    } else {
      assert rs + qs == rs;
    }
  }

  /** Replaying a log tail that has already been applied changes nothing. */
  lemma ReplayAllAgain(p: Progress, rs: seq<ReplayRequest>)
    ensures ReplayAll(ReplayAll(p, rs), rs) == ReplayAll(p, rs)
  {
    ReplayAllAppend(p, rs, rs);
    ReplayAllOrderIndependent(p, rs + rs, rs);
  }
}
