/**
  `#matchRegex`: a dot-joined list is split on `.` and every segment is tested
  against the shape for its purpose; the segments are partitioned, in order,
  into matches and mismatches.
 */
module Segments {
  import opened Text
  import Shapes

  /** The two purposes the source accepts; any other purpose string throws there and has no counterpart here. */
  datatype Purpose = PropertiesPurpose | ValuesPurpose

  predicate Accepts(purpose: Purpose, segment: string)
  {
    match purpose
    case PropertiesPurpose => Shapes.HasPropertyWord(segment)
    case ValuesPurpose => Shapes.IsValueShape(segment)
  }

  function Test(purpose: Purpose): string -> bool
  {
    segment => Accepts(purpose, segment)
  }

  datatype SegmentMatch = SegmentMatch(
    matched: bool,
    matches: seq<string>,
    mismatches: seq<string>,
    segments: seq<string>)

  datatype Parts = Parts(accepted: seq<string>, rejected: seq<string>)

  /** The segments split, in order, by the test `ok`. */
  function Partition(segments: seq<string>, ok: string -> bool): (p: Parts)
    ensures |p.accepted| + |p.rejected| == |segments|
    ensures forall k :: 0 <= k < |p.accepted| ==> ok(p.accepted[k])
    ensures forall k :: 0 <= k < |p.rejected| ==> !ok(p.rejected[k])
  {
    if |segments| == 0 then Parts([], [])
    else
      var rest := Partition(segments[1..], ok);
      if ok(segments[0]) then Parts([segments[0]] + rest.accepted, rest.rejected)
      else Parts(rest.accepted, [segments[0]] + rest.rejected)
  }

  /** `#matchRegex(operationString, purpose)`. */
  function MatchSegments(s: string, purpose: Purpose): (r: SegmentMatch)
    ensures r.segments == Split(s, '.')
    ensures Parts(r.matches, r.mismatches) == Partition(r.segments, Test(purpose))
    ensures r.matched <==> |r.mismatches| == 0 && |r.matches| > 0
  {
    var segments := Split(s, '.');
    var p := Partition(segments, Test(purpose));
    SegmentMatch(|p.rejected| == 0 && |p.accepted| > 0, p.accepted, p.rejected, segments)
  }

  /** The partition keeps the order of the segments: it distributes over concatenation. */
  lemma {:induction false} PartitionAppend(a: seq<string>, b: seq<string>, ok: string -> bool)
    ensures Partition(a + b, ok).accepted == Partition(a, ok).accepted + Partition(b, ok).accepted
    ensures Partition(a + b, ok).rejected == Partition(a, ok).rejected + Partition(b, ok).rejected
    decreases |a|
  {
    if |a| == 0 {
      assert a + b == b;
    } else {
      PartitionAppend(a[1..], b, ok);
      var x := a[0];
      assert (a + b)[1..] == a[1..] + b;
      assert (a + b)[0] == x;
      var rest := Partition(a[1..] + b, ok);
      var ra := Partition(a[1..], ok);
      var pb := Partition(b, ok);
      if ok(x) {
        assert Partition(a + b, ok) == Parts([x] + rest.accepted, rest.rejected);
        assert Partition(a, ok) == Parts([x] + ra.accepted, ra.rejected);
        assert [x] + (ra.accepted + pb.accepted) == ([x] + ra.accepted) + pb.accepted;
      } else {
        assert Partition(a + b, ok) == Parts(rest.accepted, [x] + rest.rejected);
        assert Partition(a, ok) == Parts(ra.accepted, [x] + ra.rejected);
        assert [x] + (ra.rejected + pb.rejected) == ([x] + ra.rejected) + pb.rejected;
      }
    }
  }

  /** When every segment passes, the matches are the segments themselves. */
  lemma {:induction false} PartitionAllAccepted(segments: seq<string>, ok: string -> bool)
    requires forall k :: 0 <= k < |segments| ==> ok(segments[k])
    ensures Partition(segments, ok) == Parts(segments, [])
    decreases |segments|
  {
    if |segments| > 0 {
      var tail := segments[1..];
      forall k | 0 <= k < |tail| ensures ok(tail[k]) {
        assert tail[k] == segments[k + 1];
      }
      PartitionAllAccepted(tail, ok);
      assert segments == [segments[0]] + tail;
    }
  }

  /** A failing segment always lands among the mismatches. */
  lemma {:induction false} PartitionKeepsFailure(segments: seq<string>, ok: string -> bool, k: nat)
    requires k < |segments| && !ok(segments[k])
    ensures segments[k] in Partition(segments, ok).rejected
    decreases k
  {
    if k > 0 {
      assert segments[1..][k - 1] == segments[k];
      PartitionKeepsFailure(segments[1..], ok, k - 1);
    }
  }

  /**
    A list matches exactly when every one of its segments passes (there is
    always at least one); the matches are then all the segments, in order.
   */
  lemma MatchedIffAllSegmentsPass(s: string, purpose: Purpose)
    ensures MatchSegments(s, purpose).matched <==>
      forall k :: 0 <= k < |Split(s, '.')| ==> Accepts(purpose, Split(s, '.')[k])
    ensures MatchSegments(s, purpose).matched ==> MatchSegments(s, purpose).matches == Split(s, '.')
  {
    var segments := Split(s, '.');
    if forall k :: 0 <= k < |segments| ==> Accepts(purpose, segments[k]) {
      PartitionAllAccepted(segments, Test(purpose));
    } else {
      var k :| 0 <= k < |segments| && !Accepts(purpose, segments[k]);
      PartitionKeepsFailure(segments, Test(purpose), k);
    }
  }
}
