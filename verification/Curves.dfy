/**
 Tracks of keypoints: sorted by time, cut into segments, and looked up by time,
 with or without a cursor that remembers the last segment.
 */
module Curves {
  import opened Integers

  // Keypoints stand at whole nanoseconds, and a time to evaluate at is a real:
  // a `Conversion` takes the one to the other, and keeps the order if not every
  // difference.  A segment's curve and what it plays are opaque.

  datatype Kind = Number | Boolean | Text

  datatype Value = Value(kind: Kind, content: int)

  datatype Keypoint = Keypoint(time: int, value: Value)

  // Time order.

  function Inserted(sorted: seq<Keypoint>, k: Keypoint): seq<Keypoint> {
    if sorted == [] || sorted[|sorted| - 1].time <= k.time then sorted + [k]
    else Inserted(sorted[..|sorted| - 1], k) + [sorted[|sorted| - 1]]
  }

  /** The keypoints in time order, those at one time in the order given. */
  function InTimeOrder(keypoints: seq<Keypoint>): seq<Keypoint> {
    if keypoints == [] then []
    else Inserted(InTimeOrder(keypoints[..|keypoints| - 1]), keypoints[|keypoints| - 1])
  }

  predicate Ordered(keypoints: seq<Keypoint>) {
    forall i, j :: 0 <= i <= j < |keypoints| ==> keypoints[i].time <= keypoints[j].time
  }

  /** The keypoints at a time, in order. */
  function At(keypoints: seq<Keypoint>, time: int): seq<Keypoint> {
    if keypoints == [] then []
    else
      var init, last := keypoints[..|keypoints| - 1], keypoints[|keypoints| - 1];
      At(init, time) + if last.time == time then [last] else []
  }

  lemma AtMore(keypoints: seq<Keypoint>, k: Keypoint, time: int)
    ensures At(keypoints + [k], time) == At(keypoints, time) + if k.time == time then [k] else []
  {
    assert (keypoints + [k])[..|keypoints|] == keypoints;
  }

  predicate AllBy(keypoints: seq<Keypoint>, time: int) {
    forall i :: 0 <= i < |keypoints| ==> keypoints[i].time <= time
  }

  lemma {:induction false} InsertedBy(sorted: seq<Keypoint>, k: Keypoint, time: int)
    requires AllBy(sorted, time) && k.time <= time
    ensures AllBy(Inserted(sorted, k), time) && |Inserted(sorted, k)| == |sorted| + 1
    decreases |sorted|
  {
    if sorted != [] {
      InsertedBy(sorted[..|sorted| - 1], k, time);
    }
  }

  lemma OrderedMore(keypoints: seq<Keypoint>, k: Keypoint)
    requires Ordered(keypoints) && AllBy(keypoints, k.time)
    ensures Ordered(keypoints + [k])
  {
  }

  lemma OrderedFewer(keypoints: seq<Keypoint>)
    requires Ordered(keypoints) && keypoints != []
    ensures Ordered(keypoints[..|keypoints| - 1])
    ensures AllBy(keypoints, keypoints[|keypoints| - 1].time)
    ensures AllBy(keypoints[..|keypoints| - 1], keypoints[|keypoints| - 1].time)
  {
  }

  lemma {:induction false} InsertedOrdered(sorted: seq<Keypoint>, k: Keypoint)
    requires Ordered(sorted)
    ensures Ordered(Inserted(sorted, k)) && |Inserted(sorted, k)| == |sorted| + 1
    decreases |sorted|
  {
    if sorted != [] {
      var init, last := sorted[..|sorted| - 1], sorted[|sorted| - 1];
      OrderedFewer(sorted);
      if last.time <= k.time {
        OrderedMore(sorted, k);
      } else {
        InsertedOrdered(init, k);
        InsertedBy(init, k, last.time);
        OrderedMore(Inserted(init, k), last);
      }
    }
  }

  lemma {:induction false} InsertedAt(sorted: seq<Keypoint>, k: Keypoint, time: int)
    ensures At(Inserted(sorted, k), time) == At(sorted, time) + if k.time == time then [k] else []
    decreases |sorted|
  {
    if sorted == [] || sorted[|sorted| - 1].time <= k.time {
      AtMore(sorted, k, time);
    } else {
      var init, last := sorted[..|sorted| - 1], sorted[|sorted| - 1];
      InsertedAt(init, k, time);
      AtMore(Inserted(init, k), last, time);
    }
  }

  /** Time order keeps every keypoint, and the order of those at one time. */
  lemma {:induction false} TimeOrderHolds(keypoints: seq<Keypoint>, time: int)
    ensures Ordered(InTimeOrder(keypoints)) && |InTimeOrder(keypoints)| == |keypoints|
    ensures At(InTimeOrder(keypoints), time) == At(keypoints, time)
    decreases |keypoints|
  {
    if keypoints != [] {
      var init, last := keypoints[..|keypoints| - 1], keypoints[|keypoints| - 1];
      TimeOrderHolds(init, time);
      InsertedOrdered(InTimeOrder(init), last);
      InsertedAt(InTimeOrder(init), last, time);
      assert keypoints == init + [last];
      AtMore(init, last, time);
    }
  }

  // Compiling.

  datatype Segment<B> = Segment(start: int, end: int, from: nat, to: nat, bezier: Option<B>)

  datatype Curve<B> = Curve(kind: Option<Kind>, values: seq<Value>, start: int, segments: seq<Segment<B>>)

  /** The segments between consecutive keypoints at different times. */
  ghost predicate Between<B>(order: seq<Keypoint>, segments: seq<Segment<B>>, n: nat)
  {
    && n <= |order|
    && (forall k :: 0 <= k < |segments| ==> Spans(order, segments[k]) && segments[k].to < n)
    && (forall j, k :: 0 <= j < k < |segments| ==> segments[j].to <= segments[k].from)
    && (forall i :: 0 <= i < n - 1 && order[i].time != order[i + 1].time ==> Starts(segments, i))
  }

  ghost predicate Spans<B>(order: seq<Keypoint>, s: Segment<B>) {
    && s.to == s.from + 1 && s.to < |order|
    && s.start == order[s.from].time && s.end == order[s.to].time && s.start != s.end
  }

  ghost predicate Starts<B>(segments: seq<Segment<B>>, i: nat) {
    exists k :: 0 <= k < |segments| && segments[k].from == i
  }

  ghost predicate Compiled<B>(order: seq<Keypoint>, curve: Curve<B>) {
    && Ordered(order) && Between(order, curve.segments, |order|)
    && |curve.values| == |order| && (forall i :: 0 <= i < |order| ==> curve.values[i] == order[i].value)
    && curve.start == (if order == [] then 0 else order[0].time)
    && (curve.kind.None? <==> order == [])
  }

  ghost predicate Shaped<B>(segments: seq<Segment<B>>, kind: Option<Kind>, shape: (seq<Keypoint>, nat) -> B,
                            order: seq<Keypoint>)
  {
    forall k :: 0 <= k < |segments| ==> segments[k].bezier == ShapeOf(kind, shape, order, segments[k].from)
  }

  method CompileSegments<B>(order: seq<Keypoint>, kind: Option<Kind>, shape: (seq<Keypoint>, nat) -> B)
    returns (segments: seq<Segment<B>>)
    ensures Between(order, segments, |order|) && Shaped(segments, kind, shape, order)
  {
    hide Between, Shaped;
    segments := [];
    var count := if |order| == 0 then 0 else |order| - 1;
    NoSegment(order, kind, shape);
    for i := 0 to count
      invariant Between(order, segments, Min(i + 1, |order|)) && Shaped(segments, kind, shape, order)
    {
      var start, end := order[i], order[i + 1];
      ghost var before := segments;
      if start.time != end.time {
        segments := segments + [Segment(start.time, end.time, i, i + 1, ShapeOf(kind, shape, order, i))];
      }
      OneMoreSegment(order, before, segments, i);
      OneMoreShaped(before, segments, kind, shape, order);
    }
  }

  method Compile<B>(keypoints: seq<Keypoint>, shape: (seq<Keypoint>, nat) -> B) returns (curve: Curve<B>)
    ensures Compiled(InTimeOrder(keypoints), curve)
    ensures curve.kind == if keypoints == [] then None else Some(keypoints[0].value.kind)
    ensures Shaped(curve.segments, curve.kind, shape, InTimeOrder(keypoints))
  {
    hide InTimeOrder, Between, Ordered, Shaped;
    var order := InTimeOrder(keypoints);
    TimeOrderHolds(keypoints, 0);
    var kind := if keypoints == [] then None else Some(keypoints[0].value.kind);
    var segments := CompileSegments(order, kind, shape);
    var values := seq(|order|, i requires 0 <= i < |order| => order[i].value);
    curve := Curve(kind, values, if order == [] then 0 else order[0].time, segments);
  }

  /** Only a number segment has a curve. */
  function ShapeOf<B>(kind: Option<Kind>, shape: (seq<Keypoint>, nat) -> B, order: seq<Keypoint>, from: nat): Option<B>
  {
    if kind == Some(Number) then Some(shape(order, from)) else None
  }

  lemma NoSegment<B>(order: seq<Keypoint>, kind: Option<Kind>, shape: (seq<Keypoint>, nat) -> B)
    ensures Between<B>(order, [], Min(1, |order|)) && Shaped([], kind, shape, order)
  {
  }

  lemma OneMoreShaped<B>(before: seq<Segment<B>>, after: seq<Segment<B>>, kind: Option<Kind>,
                         shape: (seq<Keypoint>, nat) -> B, order: seq<Keypoint>)
    requires Shaped(before, kind, shape, order)
    requires after == before
             || (after != [] && after[..|after| - 1] == before
                 && after[|after| - 1].bezier == ShapeOf(kind, shape, order, after[|after| - 1].from))
    ensures Shaped(after, kind, shape, order)
  {
  }

  lemma OneMoreSegment<B>(order: seq<Keypoint>, before: seq<Segment<B>>, after: seq<Segment<B>>, i: nat)
    requires i + 1 < |order| && Between(order, before, i + 1)
    requires if order[i].time == order[i + 1].time then after == before
             else |after| == |before| + 1 && after[..|before|] == before && Spans(order, after[|before|])
                  && after[|before|].from == i
    ensures Between(order, after, i + 2)
  {
    forall k | 0 <= k < i + 1 && order[k].time != order[k + 1].time ensures Starts(after, k) {
      if k < i {
        assert Starts(before, k);
        var j :| 0 <= j < |before| && before[j].from == k;
        assert after[j] == before[j];
      } else {
        assert after[|before|].from == i;
      }
    }
  }

  // Locating a time.

  type Conversion = int -> real

  /** The conversion keeps the order. */
  ghost predicate Monotone(at: Conversion) {
    forall a, b :: a <= b ==> at(a) <= at(b)
  }

  datatype Located = Hold(value: nat) | In(segment: nat)

  /** The first segment that ends at or after `t`. */
  function FirstEnding<B>(segments: seq<Segment<B>>, at: Conversion, t: real): (i: nat)
    ensures i <= |segments|
    ensures forall k :: 0 <= k < i ==> at(segments[k].end) < t
    ensures i < |segments| ==> t <= at(segments[i].end)
  {
    if segments == [] || t <= at(segments[0].end) then 0
    else
      var rest := FirstEnding(segments[1..], at, t);
      assert forall k :: 0 < k <= rest ==> segments[k] == segments[1..][k - 1];
      rest + 1
  }

  /** Where a time falls, found afresh. */
  function LocatedAfresh<B>(c: Curve<B>, at: Conversion, t: real): Located {
    if c.segments == [] then Hold(if t < at(c.start) || c.values == [] then 0 else |c.values| - 1)
    else if t <= at(c.segments[0].start) then Hold(c.segments[0].from)
    else if t >= at(c.segments[|c.segments| - 1].end) then Hold(c.segments[|c.segments| - 1].to)
    else In(FirstEnding(c.segments, at, t))
  }

  predicate Fits<B>(s: Segment<B>, at: Conversion, t: real) {
    at(s.start) < t <= at(s.end)
  }

  /** Segments follow one another in time. */
  lemma SegmentsFollow<B>(order: seq<Keypoint>, c: Curve<B>, i: nat, k: nat)
    requires Compiled(order, c)
    ensures i < k < |c.segments| ==>
              c.segments[i].start <= c.segments[i].end <= c.segments[k].start <= c.segments[k].end
  {
    if i < k < |c.segments| {
      assert Spans(order, c.segments[i]) && Spans(order, c.segments[k]);
    }
  }

  /** A time fits one segment, the first that ends at or after it. */
  lemma FitsIsFirst<B>(order: seq<Keypoint>, c: Curve<B>, at: Conversion, t: real, i: nat)
    requires Compiled(order, c) && Monotone(at) && i < |c.segments| && Fits(c.segments[i], at, t)
    ensures FirstEnding(c.segments, at, t) == i
    ensures t > at(c.segments[0].start) && t <= at(c.segments[|c.segments| - 1].end)
  {
    var first := FirstEnding(c.segments, at, t);
    SegmentsFollow(order, c, first, i);
    SegmentsFollow(order, c, 0, i);
    SegmentsFollow(order, c, i, |c.segments| - 1);
  }

  /** The first segment that ends at or after `t`, by halving. */
  method PartitionPoint<B>(c: Curve<B>, at: Conversion, t: real, ghost order: seq<Keypoint>) returns (i: nat)
    requires Compiled(order, c) && Monotone(at)
    ensures i == FirstEnding(c.segments, at, t)
  {
    var high: nat := |c.segments|;
    i := 0;
    while i < high
      invariant i <= high <= |c.segments|
      invariant i <= FirstEnding(c.segments, at, t) <= high
    {
      var mid := i + (high - i) / 2;
      EndsFollow(order, c, at, mid);
      if at(c.segments[mid].end) < t {
        i := mid + 1;
      } else {
        high := mid;
      }
    }
  }

  lemma EndsFollow<B>(order: seq<Keypoint>, c: Curve<B>, at: Conversion, mid: nat)
    requires Compiled(order, c) && Monotone(at) && mid < |c.segments|
    ensures forall k :: 0 <= k <= mid ==> at(c.segments[k].end) <= at(c.segments[mid].end)
  {
    forall k | 0 <= k <= mid ensures at(c.segments[k].end) <= at(c.segments[mid].end) {
      if k < mid {
        SegmentsFollow(order, c, k, mid);
      }
    }
  }

  /** Where the last time of a batch fell, if in a segment. */
  class Cursor {
    var segment: Option<nat>

    constructor ()
      ensures segment.None?
    {
      segment := None;
    }

    predicate Within<B>(c: Curve<B>)
      reads this
    {
      segment.Some? ==> segment.value < |c.segments|
    }

    /** Where a time falls, looked for first where the last one did: it is
        found where it would be afresh, wherever the last one was. */
    method Locate<B>(c: Curve<B>, at: Conversion, t: real, ghost order: seq<Keypoint>) returns (located: Located)
      requires Compiled(order, c) && Monotone(at) && Within(c)
      modifies this
      ensures located == LocatedAfresh(c, at, t)
      ensures Within(c) && segment == if located.In? then Some(located.segment) else old(segment)
    {
      if c.segments == [] {
        return Hold(if t < at(c.start) || c.values == [] then 0 else |c.values| - 1);
      }
      if t <= at(c.segments[0].start) {
        return Hold(c.segments[0].from);
      }
      if t >= at(c.segments[|c.segments| - 1].end) {
        return Hold(c.segments[|c.segments| - 1].to);
      }
      var index: nat;
      if segment.Some? && Fits(c.segments[segment.value], at, t) {
        index := segment.value;
        FitsIsFirst(order, c, at, t, index);
      } else if segment.Some? && segment.value + 1 < |c.segments| && Fits(c.segments[segment.value + 1], at, t) {
        index := segment.value + 1;
        FitsIsFirst(order, c, at, t, index);
      } else {
        index := PartitionPoint(c, at, t, order);
      }
      segment := Some(index);
      located := In(index);
    }
  }

  // What plays.

  datatype Sample = Sample(value: Value, moving: bool)

  /** What a segment's curve plays. */
  type Solver<!B> = (Segment<B>, real) -> Sample

  function SampleAt<B>(c: Curve<B>, at: Conversion, solve: Solver<B>, t: real, located: Located): Option<Sample>
    requires located.In? ==> located.segment < |c.segments|
  {
    if c.kind.None? then None
    else match located
      case Hold(i) => if i < |c.values| then Some(Sample(c.values[i], false)) else None
      case In(k) =>
        if c.kind == Some(Number) then Some(solve(c.segments[k], t))
        else if c.segments[k].from < |c.values| then Some(Sample(c.values[c.segments[k].from], false)) else None
  }

  function SampleAfresh<B>(c: Curve<B>, at: Conversion, solve: Solver<B>, t: real): Option<Sample> {
    SampleAt(c, at, solve, t, LocatedAfresh(c, at, t))
  }

  // The step rule.

  /** The keypoint whose value plays at `t`, of a curve with segments the one
      its segment starts from. */
  function Playing<B>(c: Curve<B>, at: Conversion, t: real): nat {
    match LocatedAfresh(c, at, t)
    case Hold(i) => i
    case In(k) => c.segments[k].from
  }

  lemma PlaysAKeypoint<B>(order: seq<Keypoint>, c: Curve<B>, at: Conversion, t: real)
    requires Compiled(order, c) && order != []
    ensures Playing(c, at, t) < |order|
  {
    if c.segments != [] {
      assert Spans(order, c.segments[0]) && Spans(order, c.segments[|c.segments| - 1]);
      if LocatedAfresh(c, at, t).In? {
        assert Spans(order, c.segments[LocatedAfresh(c, at, t).segment]);
      }
    }
  }

  /** Keypoints between which no segment starts are at one time. */
  lemma {:induction false} SameTime<B>(order: seq<Keypoint>, c: Curve<B>, i: nat, j: nat)
    requires Compiled(order, c) && i <= j < |order|
    requires forall k :: 0 <= k < |c.segments| ==> !(i <= c.segments[k].from < j)
    ensures order[i].time == order[j].time
    decreases j
  {
    if i < j {
      SameTime(order, c, i, j - 1);
      StartsOrSame(order, c, j - 1);
    }
  }

  lemma StartsOrSame<B>(order: seq<Keypoint>, c: Curve<B>, i: nat)
    requires Compiled(order, c) && i + 1 < |order|
    ensures order[i].time == order[i + 1].time || Starts(c.segments, i)
  {
  }

  lemma FirstSegment<B>(order: seq<Keypoint>, c: Curve<B>)
    requires Compiled(order, c) && c.segments != []
    ensures var s := c.segments[0];
            s.to < |order| && s.start == order[0].time == order[s.from].time < order[s.to].time && s.to == s.from + 1
  {
    var s := c.segments[0];
    assert Spans(order, s);
    SameTime(order, c, 0, s.from);
  }

  lemma LastSegment<B>(order: seq<Keypoint>, c: Curve<B>)
    requires Compiled(order, c) && c.segments != []
    ensures var s := c.segments[|c.segments| - 1];
            && s.to < |order| && s.end == order[|order| - 1].time == order[s.to].time > order[s.from].time
            && s.to == s.from + 1
  {
    var s := c.segments[|c.segments| - 1];
    assert Spans(order, s);
    SameTime(order, c, s.to, |order| - 1);
  }

  /** The last keypoint before `t`. */
  predicate LastBefore(order: seq<Keypoint>, at: Conversion, t: real, i: nat) {
    && i < |order| && at(order[i].time) < t
    && forall j :: i < j < |order| ==> t <= at(order[j].time)
  }

  /** The last of the keypoints at the earliest time. */
  predicate LastOfFirst(order: seq<Keypoint>, i: nat) {
    && i + 1 < |order| && order[i].time == order[0].time
    && forall j :: i < j < |order| ==> order[0].time < order[j].time
  }

  /** The first of the keypoints at the latest time. */
  predicate FirstOfLast(order: seq<Keypoint>, i: nat) {
    && 0 < i < |order| && order[i].time == order[|order| - 1].time
    && forall j :: 0 <= j < i ==> order[j].time < order[|order| - 1].time
  }

  /**
   Strictly inside the track's span, the last keypoint strictly before the
   time plays; at its start or before, the last of those at the first time;
   at its end or after, the first of those at the last time; and with all at
   one time, the first before it and the last from it on.
   */
  lemma StepRule<B>(order: seq<Keypoint>, c: Curve<B>, at: Conversion, t: real)
    requires Compiled(order, c) && Monotone(at) && order != []
    ensures var i, first, last := Playing(c, at, t), order[0].time, order[|order| - 1].time;
            if first == last then i == if t < at(first) then 0 else |order| - 1
            else if t <= at(first) then LastOfFirst(order, i)
            else if t >= at(last) then FirstOfLast(order, i)
            else LastBefore(order, at, t, i)
  {
    if c.segments == [] {
      SameTime(order, c, 0, |order| - 1);
    } else {
      FirstSegment(order, c);
      LastSegment(order, c);
      var located := LocatedAfresh(c, at, t);
      if located.In? {
        InsideRule(order, c, at, t, located.segment);
      }
    }
  }

  lemma InsideRule<B>(order: seq<Keypoint>, c: Curve<B>, at: Conversion, t: real, k: nat)
    requires Compiled(order, c) && Monotone(at) && k < |c.segments|
    requires at(c.segments[0].start) < t < at(c.segments[|c.segments| - 1].end) && FirstEnding(c.segments, at, t) == k
    ensures LastBefore(order, at, t, c.segments[k].from)
  {
    var s := c.segments[k];
    assert Spans(order, s);
    if k > 0 {
      var before := c.segments[k - 1];
      assert Spans(order, before);
      forall j | 0 <= j < |c.segments| ensures !(before.to <= c.segments[j].from < s.from) {
        if j < k - 1 {
          assert c.segments[j].to <= before.from;
        } else if j > k {
          assert s.to <= c.segments[j].from;
        }
      }
      SameTime(order, c, before.to, s.from);
    }
    forall j | s.from < j < |order| ensures t <= at(order[j].time) {
      assert s.end <= order[j].time;
    }
  }

  // A batch.

  /** The keypoint the step rule names at `t`. */
  predicate StepsTo(order: seq<Keypoint>, at: Conversion, t: real, i: nat)
    requires order != []
  {
    var first, last := order[0].time, order[|order| - 1].time;
    && i < |order|
    && if first == last then i == if t < at(first) then 0 else |order| - 1
       else if t <= at(first) then LastOfFirst(order, i)
       else if t >= at(last) then FirstOfLast(order, i)
       else LastBefore(order, at, t, i)
  }

  /** A number strictly inside its track's span moves along the segment that
      starts from that keypoint; everything else holds the keypoint's value. */
  ghost predicate Plays<B>(order: seq<Keypoint>, c: Curve<B>, at: Conversion, solve: Solver<B>, t: real, i: nat,
                                 sample: Sample)
    requires order != []
  {
    && StepsTo(order, at, t, i)
    && if c.kind == Some(Number) && at(order[0].time) < t < at(order[|order| - 1].time)
       then exists k :: 0 <= k < |c.segments| && c.segments[k].from == i && Fits(c.segments[k], at, t)
                        && sample == solve(c.segments[k], t)
       else sample == Sample(order[i].value, false)
  }

  ghost predicate PlaysByStep<B>(order: seq<Keypoint>, c: Curve<B>, at: Conversion, solve: Solver<B>, t: real,
                                 sample: Sample)
    requires order != []
  {
    exists i: nat :: Plays(order, c, at, solve, t, i, sample)
  }

  lemma StepTells<B>(order: seq<Keypoint>, c: Curve<B>, at: Conversion, t: real)
    requires Compiled(order, c) && Monotone(at) && order != []
    ensures StepsTo(order, at, t, Playing(c, at, t))
    ensures LocatedAfresh(c, at, t).In? <==> at(order[0].time) < t < at(order[|order| - 1].time)
  {
    hide LastBefore, LastOfFirst, FirstOfLast;
    PlaysAKeypoint(order, c, at, t);
    StepRule(order, c, at, t);
    if c.segments == [] {
      SameTime(order, c, 0, |order| - 1);
    } else {
      FirstSegment(order, c);
      LastSegment(order, c);
    }
  }

  /** A time alone gives what the step rule says. */
  lemma SamplesByStep<B>(order: seq<Keypoint>, c: Curve<B>, at: Conversion, solve: Solver<B>, t: real)
    requires Compiled(order, c) && Monotone(at) && order != []
    ensures SampleAfresh(c, at, solve, t).Some?
    ensures PlaysByStep(order, c, at, solve, t, SampleAfresh(c, at, solve, t).value)
  {
    hide StepsTo;
    PlaysAKeypoint(order, c, at, t);
    StepTells(order, c, at, t);
    var located := LocatedAfresh(c, at, t);
    if located.In? {
      hide Compiled;
      FallsWithin(order, c, at, t, located.segment);
    }
    assert Plays(order, c, at, solve, t, Playing(c, at, t), SampleAfresh(c, at, solve, t).value);
  }

  lemma FallsWithin<B>(order: seq<Keypoint>, c: Curve<B>, at: Conversion, t: real, k: nat)
    requires Compiled(order, c) && Monotone(at) && k < |c.segments|
    requires at(c.segments[0].start) < t < at(c.segments[|c.segments| - 1].end) && FirstEnding(c.segments, at, t) == k
    ensures Fits(c.segments[k], at, t)
  {
    InsideRule(order, c, at, t, k);
    assert Spans(order, c.segments[k]);
  }

  /**
   A batch: each time gives what it gives alone, whatever came before it, and
   that is the step rule's value or, of a number inside its span, what the
   segment plays.
   */
  method SampleMany<B>(c: Curve<B>, at: Conversion, solve: Solver<B>, times: seq<real>, out: seq<Sample>,
                       ghost order: seq<Keypoint>)
    returns (all: seq<Sample>)
    requires Compiled(order, c) && Monotone(at)
    ensures if c.values == [] then all == out
            else |all| == |out| + |times| && all[..|out|] == out
                 && forall i :: 0 <= i < |times| ==> Some(all[|out| + i]) == SampleAfresh(c, at, solve, times[i])
    ensures order != [] ==>
              && |all| == |out| + |times|
              && forall i :: 0 <= i < |times| ==>
                   PlaysByStep(order, c, at, solve, times[i], all[|out| + i])
  {
    hide PlaysByStep;
    all := out;
    if c.values == [] {
      return;
    }
    var cursor := new Cursor();
    for i := 0 to |times|
      invariant cursor.Within(c) && fresh(cursor)
      invariant |all| == |out| + i && all[..|out|] == out
      invariant forall k :: 0 <= k < i ==> Some(all[|out| + k]) == SampleAfresh(c, at, solve, times[k])
    {
      var located := cursor.Locate(c, at, times[i], order);
      PlaysAKeypoint(order, c, at, times[i]);
      all := all + [SampleAt(c, at, solve, times[i], located).value];
    }
    forall i | 0 <= i < |times| ensures PlaysByStep(order, c, at, solve, times[i], all[|out| + i]) {
      SamplesByStep(order, c, at, solve, times[i]);
    }
  }
}
