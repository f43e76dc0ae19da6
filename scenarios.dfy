/** Clients of the WAL state that show what callers can conclude from the
    contracts alone, for the behaviours the design describes. */
module Scenarios {
  import opened GoInts
  import opened Recovery
  import opened Wal

  /** A fresh state numbers from 1; a successor continues the count and
      shares the predecessor's maps. */
  method NumberingAndContinuation()
  {
    var first := new State.NewState();
    var a := first.GetNextRequestNumber();
    var b := first.GetNextRequestNumber();
    assert a == 1 && b == 2;

    var second := new State.NewState();
    second.SetFileOffset(100);
    second.ContinueFromState(first);
    var c := second.GetNextRequestNumber();
    assert c == 3 && second.fileOffset == 100 && second.version == CURRENT_VERSION;
    assert first.largestRequestNumber == 2;

    second.SetCurrentSequenceNumber(7, 42);
    var seen := first.GetCurrentSequenceNumber(7);
    assert seen == 42;
  }

  /** The low-water mark follows the slowest server, starting from the
      "nothing is safe to truncate" sentinel. */
  method LowWaterMark()
  {
    var s := new State.NewState();
    var none := s.LowestCommitedRequestNumber();
    assert none == MaxUint32;

    s.CommitRequestNumber(1, 5);
    s.CommitRequestNumber(2, 3);
    var lwm := s.LowestCommitedRequestNumber();
    assert s.serverLastRequestNumber.entries == map[1 := 5, 2 := 3];
    SlowestOfTwo(s.serverLastRequestNumber.entries, 1, 2, lwm);
    assert lwm == 3;

    s.CommitRequestNumber(1, 10);
    lwm := s.LowestCommitedRequestNumber();
    assert s.serverLastRequestNumber.entries == map[1 := 10, 2 := 3];
    SlowestOfTwo(s.serverLastRequestNumber.entries, 1, 2, lwm);
    assert lwm == 3;

    s.CommitRequestNumber(2, 12);
    lwm := s.LowestCommitedRequestNumber();
    assert s.serverLastRequestNumber.entries == map[1 := 10, 2 := 12];
    SlowestOfTwo(s.serverLastRequestNumber.entries, 1, 2, lwm);
    assert lwm == 10;
  }

  /** With two servers acknowledged, the low-water mark is the smaller acknowledgement. */
  lemma SlowestOfTwo(m: map<uint32, uint32>, a: uint32, b: uint32, r: uint32)
    requires m.Keys == {a, b}
    requires IsLowWaterMark(m, r)
    ensures r == Min32(m[a], m[b])
  {
    var w :| w in m && m[w] == r;
    assert w == a || w == b;
  }

  function Min32(x: uint32, y: uint32): uint32
  {
    if x < y then x else y
  }

  /** Replaying a record raises the counter and the shard's entry, and
      replaying it again changes nothing. */
  method RecoverTwice()
  {
    var s := new State.NewState();
    var r := ReplayRequest(51, 4, [Point(Some(9)), Point(None), Point(Some(17))]);
    s.Recover(r);
    assert PeakSequence(0, r.points[..1]) == 9 by { assert r.points[..1][..0] == []; }
    assert PeakSequence(0, r.points[..2]) == 9 by { assert r.points[..2][..1] == r.points[..1]; }
    assert PeakSequence(0, r.points) == 17 by { assert r.points[..3] == r.points; }
    assert s.largestRequestNumber == 51;
    assert s.shardLastSequenceNumber.entries == map[4 := 17];
    ghost var once := s.ReplayView();
    s.Recover(r);
    ReplayIdempotent(Progress(0, map[]), r);
    assert s.ReplayView() == once;
  }
}
