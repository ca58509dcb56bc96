/**
 A player: a playhead moved by a device clock.

 `Standing` is a player as a value and the functions on it say what each
 command makes of it, in terms of `Transport.Travelled`.  `Player` is the
 object that does it, in `i64` and `i128` throughout.
 */
module Players {
  import opened Integers
  import Speed
  import opened Transport

  datatype State = Playing | Paused | Stopped

  /** From which device time the distance a player has to go is reckoned, if any. */
  datatype Clock =
    | Idle
    | From(from: i64, travelled: i128)
    | Waiting(at: i64)

  datatype Standing = Standing(
    head: Head,
    state: State,
    speed: Speed.Float,
    mode: Mode,
    windowStart: i64,
    windowEnd: Option<i64>,
    clock: Clock,
    now: Option<i64>)
  {
    /** A running clock has travelled no further than its last step took it. */
    ghost predicate Valid() {
      && speed.Valid()
      && -TWO_TO_THE_63 <= head.position < TWO_TO_THE_63
      && (clock.From? ==>
            && now.Some?
            && clock.from <= now.value
            && 0 <= clock.travelled <= Speed.Travel(Elapsed(clock.from, now.value), speed))
    }
  }

  function Elapsed(from: i64, to: i64): (elapsed: i128)
    ensures elapsed as int == to as int - from as int
  {
    (to as i128) - (from as i128)
  }

  /** The window's ends in order, its end the length when none is set. */
  function WindowLow(s: Standing, length: i64): i64 {
    var end := if s.windowEnd.Some? then s.windowEnd.value else length;
    if s.windowStart <= end then s.windowStart else end
  }

  function WindowHigh(s: Standing, length: i64): i64 {
    var end := if s.windowEnd.Some? then s.windowEnd.value else length;
    if s.windowStart <= end then end else s.windowStart
  }

  function NotBelowZero(length: i64): i64 {
    if length < 0 then 0 else length
  }

  function RulesOf(s: Standing, length: i64): (r: Rules)
    ensures r.Valid()
  {
    var l := NotBelowZero(length);
    Rules(s.mode, WindowLow(s, l) as int, WindowHigh(s, l) as int, l as int, s.speed.AtLeastZero())
  }

  /** The rules start afresh. */
  function Afresh(h: Head): Head {
    h.(reversed := false, turned := false, entered := false, ended := false)
  }

  /** Whether the clock moves the playhead at `now`. */
  predicate Runs(s: Standing, now: i64) {
    s.state == Playing && !s.clock.Idle? && !(s.clock.Waiting? && now < s.clock.at)
  }

  /** The device time a clock that runs measures from. */
  function Anchor(s: Standing): i64
    requires !s.clock.Idle?
  {
    if s.clock.Waiting? then s.clock.at else s.clock.from
  }

  function Total(s: Standing, now: i64): i128
    requires s.speed.Valid() && !s.clock.Idle?
  {
    Speed.Travel(Elapsed(Anchor(s), now), s.speed)
  }

  /** How far a step to `now` goes: what the clock has not travelled yet. */
  function Distance(s: Standing, now: i64): nat
    requires s.speed.Valid() && !s.clock.Idle?
  {
    Max(0, Total(s, now) as int - if s.clock.Waiting? then 0 else s.clock.travelled as int)
  }

  /** `s` after its clock moved it to `now`. */
  function Advanced(s: Standing, now: i64, length: i64): Standing
    requires s.speed.Valid()
  {
    if s.now.Some? && now < s.now.value then s
    else if !Runs(s, now) then s.(now := Some(now))
    else
      s.(now := Some(now),
         clock := From(Anchor(s), Total(s, now)),
         head := Travelled(RulesOf(s, length), s.head, Distance(s, now)))
  }

  function Restarted(c: Clock, at: i64): Clock {
    if c.From? then From(at, 0) else c
  }

  function Played(s: Standing, at: i64, length: i64): Standing
    requires s.speed.Valid()
  {
    var s := Advanced(s, at, length);
    s.(state := Playing, head := Afresh(s.head), clock := From(at, 0))
  }

  function PlayedAt(s: Standing, at: i64, start: i64, length: i64): Standing
    requires s.speed.Valid()
  {
    var s := Advanced(s, at, length);
    s.(state := Playing, head := Afresh(s.head), clock := Waiting(start))
  }

  function PausedThere(s: Standing, at: i64, length: i64): Standing
    requires s.speed.Valid()
  {
    Advanced(s, at, length).(state := Paused, clock := Idle)
  }

  function StoppedAtStart(s: Standing, at: i64, length: i64): Standing
    requires s.speed.Valid()
  {
    var s := Advanced(s, at, length);
    s.(state := Stopped, clock := Idle, head := Afresh(s.head.(position := WindowLow(s, length) as int)))
  }

  function Sought(s: Standing, at: i64, position: i64, length: i64): Standing
    requires s.speed.Valid()
  {
    var s := Advanced(s, at, length);
    s.(head := Afresh(s.head.(position := position as int)), clock := Restarted(s.clock, at))
  }

  function WithSpeed(s: Standing, at: i64, speed: Speed.Float, length: i64): Standing
    requires s.speed.Valid()
  {
    var s := Advanced(s, at, length);
    s.(head := if speed.BelowZero() != s.speed.BelowZero() then Afresh(s.head) else s.head,
       speed := speed,
       clock := Restarted(s.clock, at))
  }

  function WithWindow(s: Standing, at: i64, start: i64, end: Option<i64>, length: i64): Standing
    requires s.speed.Valid()
  {
    var s := Advanced(s, at, length);
    s.(windowStart := start, windowEnd := end, head := s.head.(entered := false))
  }

  function WithReversed(s: Standing, at: i64, reversed: bool, length: i64): Standing
    requires s.speed.Valid()
  {
    var s := Advanced(s, at, length);
    s.(head := s.head.(reversed := reversed, turned := s.head.turned || reversed))
  }

  /** `heading * distance`, the heading being 1 or -1. */
  function Signed(heading: i128, distance: i128): (s: i128)
    requires distance >= 0
    ensures heading == 1 || heading == -1 ==> s == heading * distance
  {
    if heading > 0 then distance else -distance
  }

  /** What `AtBound` leaves continues the travel. */
  lemma AfterBound(r: Rules, e: Head, distance: nat, at: Head, after: Head, left: nat)
    requires r.Valid() && !e.ended && Enter(r, e) == e && (Inside(r, e) || HeadsAway(r, e))
    requires !e.entered ==> Gap(r, e) <= 0 || HeadsAway(r, e)
    requires distance > Max(Room(r, e), 0) && at == AtAhead(r, e)
    requires if Stops(r, at) then left == 0 && after == at.(ended := true)
             else if Span(r, at) == 0 then left == 0 && after == at
             else left == Left(r, at, distance - Max(Room(r, e), 0)) && after == Placed(r, at)
    ensures Leg(r, e, distance, after, left)
  {
    TravelToAhead(r, e, distance);
    TravelNothing(r, after, 0);
  }

  lemma AdvancedFits(s: Standing, now: i64, length: i64)
    requires s.Valid()
    ensures -TWO_TO_THE_63 <= Advanced(s, now, length).head.position < TWO_TO_THE_63
  {
    if !(s.now.Some? && now < s.now.value) && Runs(s, now) {
      var r := RulesOf(s, length);
      TravelStaysInHull(r, s.head, Distance(s, now));
      assert -TWO_TO_THE_63 <= r.lo <= r.hi < TWO_TO_THE_63 && r.length < TWO_TO_THE_63;
    }
  }

  lemma AdvancedIsValid(s: Standing, now: i64, length: i64)
    requires s.Valid()
    ensures Advanced(s, now, length).Valid()
  {
    AdvancedFits(s, now, length);
    var next := Advanced(s, now, length);
    if !(s.now.Some? && now < s.now.value) {
      if Runs(s, now) {
        assert next.clock.travelled == Speed.Travel(Elapsed(next.clock.from, next.now.value), next.speed);
      } else if s.clock.From? {
        Speed.TravelMonotone(Elapsed(s.clock.from, s.now.value), Elapsed(s.clock.from, now), s.speed);
      }
    }
  }

  // The position at a device time does not depend on the steps.

  /** Alike but for having entered a window of no length at all. */
  predicate Alike(s: Standing, t: Standing, length: i64) {
    s == t
    || (RulesOf(s, length).Degenerate()
        && s.(head := s.head.(entered := true)) == t.(head := t.head.(entered := true)))
  }

  /** Stepped twice, a player stands where one step to the later of the two
      times leaves it. */
  lemma TwoStepsAreOne(s: Standing, first: i64, second: i64, length: i64)
    requires s.Valid()
    ensures Alike(Advanced(Advanced(s, first, length), second, length),
                  Advanced(s, if first <= second then second else first, length), length)
  {
    if !(s.now.Some? && first < s.now.value) && first <= second && Runs(s, first) {
      if s.clock.From? {
        Speed.TravelMonotone(Elapsed(s.clock.from, s.now.value), Elapsed(s.clock.from, first), s.speed);
      }
      Speed.TravelMonotone(Elapsed(Anchor(s), first), Elapsed(Anchor(s), second), s.speed);
      var next := Advanced(s, first, length);
      assert Distance(s, first) + Distance(next, second) == Distance(s, second);
      StepIndependence(RulesOf(s, length), s.head, Distance(s, first), Distance(next, second));
    }
  }

  function AdvancedThrough(s: Standing, times: seq<i64>, length: i64): Standing
    requires s.speed.Valid()
    decreases |times|
  {
    if times == [] then s
    else AdvancedThrough(Advanced(s, times[0], length), times[1..], length)
  }

  function Latest(times: seq<i64>): (latest: i64)
    requires times != []
    ensures latest in times && forall t | t in times :: t <= latest
  {
    if |times| == 1 then times[0]
    else
      var rest := Latest(times[1..]);
      assert times == [times[0]] + times[1..];
      if times[0] <= rest then rest else times[0]
  }

  /**
   However a player is stepped, in whatever order and how often, it stands
   where one step to the latest of the times leaves it.
   */
  lemma {:induction false} AnyScheduleAgrees(s: Standing, times: seq<i64>, length: i64)
    requires s.Valid() && times != []
    ensures Alike(AdvancedThrough(s, times, length), Advanced(s, Latest(times), length), length)
    decreases |times|
  {
    var first := Advanced(s, times[0], length);
    if |times| == 1 {
      assert times[1..] == [];
    } else {
      AdvancedIsValid(s, times[0], length);
      AnyScheduleAgrees(first, times[1..], length);
      TwoStepsAreOne(s, times[0], Latest(times[1..]), length);
    }
  }

  /** Told to play at `start`, a player stands from then on where it would
      had it held and been started at that instant. */
  lemma PlayAtStandsWherePlayWould(s: Standing, at: i64, start: i64, now: i64, length: i64)
    requires s.Valid() && at <= now && start <= now && (s.now.Some? ==> s.now.value <= now)
    ensures Advanced(PlayedAt(s, at, start, length), now, length)
            == Advanced(Played(PausedThere(s, at, length), start, length), now, length)
  {
  }

  /** Sought while it plays, a player goes on as one started there then. */
  lemma SoughtPlaysOn(s: Standing, at: i64, position: i64, length: i64)
    requires s.Valid() && Advanced(s, at, length).state == Playing && Advanced(s, at, length).clock.From?
    requires s.now.Some? ==> s.now.value <= at
    ensures Sought(s, at, position, length)
            == Played(Advanced(s, at, length).(head := s.head.(position := position as int)), at, length)
  {
  }

  /** Not playing, a player stands where it was put whenever it is stepped:
      sought, there; stopped, at its window's start. */
  lemma {:induction false} HeldThroughout(s: Standing, times: seq<i64>, length: i64)
    requires s.Valid() && s.state != Playing
    ensures AdvancedThrough(s, times, length).head == s.head
    decreases |times|
  {
    if times != [] {
      AdvancedIsValid(s, times[0], length);
      HeldThroughout(Advanced(s, times[0], length), times[1..], length);
    }
  }

  lemma StoppedHolds(s: Standing, at: i64, times: seq<i64>, length: i64)
    requires s.Valid()
    ensures AdvancedThrough(StoppedAtStart(s, at, length), times, length).head
            == Head(WindowLow(s, length) as int, false, false, false, false)
  {
    AdvancedIsValid(s, at, length);
    HeldThroughout(StoppedAtStart(s, at, length), times, length);
  }

  lemma SoughtHolds(s: Standing, at: i64, position: i64, times: seq<i64>, length: i64)
    requires s.Valid() && s.state != Playing
    ensures AdvancedThrough(Sought(s, at, position, length), times, length).head
            == Head(position as int, false, false, false, false)
  {
    AdvancedIsValid(s, at, length);
    HeldThroughout(Sought(s, at, position, length), times, length);
  }

  lemma SoughtThenStays(s: Standing, at: i64, position: i64, length: i64)
    requires s.Valid()
    ensures Advanced(Sought(s, at, position, length), at, length).head
            == Head(position as int, false, false, false, false)
  {
    var put := Sought(s, at, position, length);
    if put.clock.From? && put.clock.from == at {
      TravelNothing(RulesOf(put, length), put.head, 0);
    }
  }

  /** A late player put where another is and given its heading travels as the
      other does, under the same rules: if a bounce turned the other but on
      the way it heads, and if the other entered no window it stands outside. */
  lemma HeadedAlikeTravelsAlike(late: Standing, lead: Standing, at: i64, length: i64, distance: nat)
    requires late.Valid() && lead.Valid() && RulesOf(late, length) == RulesOf(lead, length) && !lead.head.ended
    requires -TWO_TO_THE_63 <= lead.head.position < TWO_TO_THE_63
    requires lead.mode == Bounce ==> lead.head.turned == lead.head.reversed
    requires lead.head.entered ==> WindowLow(lead, NotBelowZero(length)) as int <= lead.head.position
                                   <= WindowHigh(lead, NotBelowZero(length)) as int
    ensures var put := Sought(late, at, lead.head.position as i64, length);
            var headed := WithReversed(put, at, lead.head.reversed, length).head;
            var mine, its := Travelled(RulesOf(late, length), headed, distance),
                             Travelled(RulesOf(lead, length), lead.head, distance);
            mine.position == its.position && mine.reversed == its.reversed && mine.ended == its.ended
  {
    SoughtThenStays(late, at, lead.head.position as i64, length);
    PlaysAlongside(RulesOf(lead, length), lead.head, distance);
  }

  class Player {
    var position: i64
    var state: State
    var speed: Speed.Float
    var mode: Mode
    var windowStart: i64
    var windowEnd: Option<i64>
    var reversed: bool
    var turned: bool
    var entered: bool
    var ended: bool
    var clock: Clock
    var now: Option<i64>

    ghost function View(): Standing
      reads this
    {
      Standing(Head(position as int, reversed, turned, entered, ended),
               state, speed, mode, windowStart, windowEnd, clock, now)
    }

    ghost predicate Valid()
      reads this
    {
      View().Valid()
    }

    constructor ()
      ensures Valid()
      ensures View() == Standing(Head(0, false, false, false, false), Paused,
                                 Speed.Finite(false, 0x10_0000_0000_0000, -52), Once, 0, None, Idle, None)
    {
      position, state, speed, mode := 0, Paused, Speed.Finite(false, 0x10_0000_0000_0000, -52), Once;
      windowStart, windowEnd := 0, None;
      reversed, turned, entered, ended := false, false, false, false;
      clock, now := Idle, None;
    }

    method BoundsOfWindow(length: i64) returns (lo: i64, hi: i64)
      ensures lo == WindowLow(View(), length) && hi == WindowHigh(View(), length)
    {
      var end := if windowEnd.Some? then windowEnd.value else length;
      if windowStart <= end {
        lo, hi := windowStart, end;
      } else {
        lo, hi := end, windowStart;
      }
    }

    method StopsAtBound() returns (stops: bool)
      ensures stops == (mode == Once || (mode == Bounce && turned))
    {
      match mode
      case Once => stops := true;
      case Bounce => stops := turned;
      case _ => stops := false;
    }

    /** The loop mode's rule at the bound ahead, with `remaining` nanoseconds
        still to travel: what is left to travel, and from where. */
    method AtBound(heading: i128, lo: i128, hi: i128, remaining: i128, at: i128, ghost r: Rules, ghost h: Head)
      returns (left: i128, to: i128)
      requires r.Valid() && h == Head(at as int, reversed, turned, entered, ended) && !ended
      requires r.mode == mode && lo as int == Low(r, h) && hi as int == High(r, h)
      requires heading as int == Along(r, h, 1) && at as int == Ahead(r, h)
      requires remaining > 0 && -0x8000_0000_0000_0000 <= lo <= hi < 0x8000_0000_0000_0000
      modifies this`reversed, this`turned, this`ended
      ensures var after := Head(to as int, reversed, turned, entered, ended);
              if Stops(r, h) then left == 0 && after == h.(ended := true)
              else if Span(r, h) == 0 then left == 0 && after == h
              else left as int == Left(r, h, remaining as int) && after == Placed(r, h)
    {
      to := at;
      var span := hi - lo;
      var stops := StopsAtBound();
      if stops {
        ended := true;
        return 0, to;
      }
      if span == 0 {
        return 0, to;
      }
      if mode == Loop {
        to := if heading > 0 then lo else hi;
        left := if entered then (remaining - 1) % span + 1 else remaining;
      } else {
        left := if mode == PingPong && entered then (remaining - 1) % (2 * span) + 1 else remaining;
        reversed := !reversed;
        turned := true;
      }
    }

    /** The playhead at `at`. */
    ghost function Here(at: i128): Head
      reads this
    {
      Head(at as int, reversed, turned, entered, ended)
    }

    /** The playhead stands at `at` between the bounds it has, or past them,
        with some way to go. */
    ghost predicate Facing(at: i128, lo: i128, hi: i128, heading: i128, distance: i128, r: Rules)
      reads this
    {
      var h := Here(at);
      && r.Valid() && r.mode == mode
      && !ended && distance > 0 && Enter(r, h) == h
      && lo as int == Low(r, h) && hi as int == High(r, h) && heading as int == Along(r, h, 1)
      && -0x8000_0000_0000_0000 <= lo <= hi < 0x8000_0000_0000_0000
      && -0x8000_0000_0000_0000 <= at < 0x8000_0000_0000_0000
    }

    /** Enters the window the playhead stands in, and gives the window, the
        bounds and the heading a leg from `at` has. */
    method Face(at: i128, distance: i128, length: i64, ghost r: Rules)
      returns (windowLow: i128, windowHigh: i128, lo: i128, hi: i128, heading: i128)
      requires r == RulesOf(View(), length) && length >= 0 && distance > 0 && !ended
      requires -0x8000_0000_0000_0000 <= at < 0x8000_0000_0000_0000
      modifies this`entered
      ensures windowLow as int == r.lo && windowHigh as int == r.hi
      ensures Here(at) == Enter(r, old(Here(at))) && Facing(at, lo, hi, heading, distance, r)
    {
      var l, u := BoundsOfWindow(length);
      windowLow, windowHigh := l as i128, u as i128;
      if !entered && windowLow <= at && at <= windowHigh {
        entered := true;
      }
      lo, hi := windowLow, windowHigh;
      if !entered {
        lo := if windowLow < 0 then windowLow else 0;
        hi := if windowHigh > length as i128 then windowHigh else length as i128;
      }
      heading := if speed.AtLeastZero() != reversed then 1 else -1;
    }

    /** Outside the bounds and heading for them: up to them. */
    method TravelToward(at: i128, lo: i128, hi: i128, heading: i128, distance: i128, ghost r: Rules)
      returns (left: i128, to: i128)
      requires Facing(at, lo, hi, heading, distance, r) && (at < lo || at > hi)
      requires (at < lo) == (heading > 0)
      ensures left >= 0 && Leg(r, Here(at), distance as int, Here(to), left as int)
    {
      var gap := if at < lo then lo - at else at - hi;
      var step := if distance <= gap then distance else gap;
      TravelToBounds(r, Here(at), distance as int, step as int);
      to := at + Signed(heading, step);
      left := distance - step;
      assert Here(to) == Moved(r, Here(at), step as int);
    }

    /** Outside the bounds and heading away: the bound left behind is where
        the mode takes the playhead from. */
    method TravelAway(at: i128, lo: i128, hi: i128, heading: i128, distance: i128, ghost r: Rules)
      returns (left: i128, to: i128)
      requires Facing(at, lo, hi, heading, distance, r) && (at < lo || at > hi)
      requires (at < lo) != (heading > 0)
      modifies this`reversed, this`turned, this`ended
      ensures left >= 0 && Leg(r, old(Here(at)), distance as int, Here(to), left as int)
    {
      ghost var e := Here(at);
      to := if heading > 0 then hi else lo;
      ghost var h := AtAhead(r, e);
      left, to := AtBound(heading, lo, hi, distance, to, r, h);
      AfterBound(r, e, distance as int, h, Here(to), left as int);
    }

    /** Inside the bounds with room for the whole travel. */
    method TravelOn(at: i128, lo: i128, hi: i128, heading: i128, distance: i128, ghost r: Rules) returns (to: i128)
      requires Facing(at, lo, hi, heading, distance, r) && lo <= at <= hi
      requires !entered && Gap(r, Here(at)) > 0 ==> (distance as int) < Gap(r, Here(at))
      requires distance as int <= Room(r, Here(at))
      modifies this`ended
      ensures Leg(r, old(Here(at)), distance as int, Here(to), 0)
    {
      TravelInside(r, Here(at), distance as int);
      to := at + Signed(heading, distance);
      var stops := StopsAtBound();
      if to == (if heading > 0 then hi else lo) && stops {
        ended := true;
      }
      TravelNothing(r, Here(to), 0);
    }

    /** Inside the bounds with further to go than there is room. */
    method TravelPast(at: i128, lo: i128, hi: i128, heading: i128, distance: i128, room: i128, ghost r: Rules)
      returns (left: i128, to: i128)
      requires Facing(at, lo, hi, heading, distance, r) && lo <= at <= hi
      requires !entered ==> Gap(r, Here(at)) <= 0
      requires room as int == Room(r, Here(at)) && distance > room
      modifies this`reversed, this`turned, this`ended
      ensures left >= 0 && Leg(r, old(Here(at)), distance as int, Here(to), left as int)
    {
      ghost var e := Here(at);
      to := at + Signed(heading, room);
      ghost var h := AtAhead(r, e);
      left, to := AtBound(heading, lo, hi, distance - room, to, r, h);
      AfterBound(r, e, distance as int, h, Here(to), left as int);
    }

    /** Not in the window yet: up to its near end ahead, when the travel
        reaches it. */
    method TravelIntoWindow(at: i128, windowLow: i128, windowHigh: i128, heading: i128, distance: i128, ghost r: Rules,
                            ghost lo: i128, ghost hi: i128)
      returns (reached: bool, left: i128, to: i128)
      requires Facing(at, lo, hi, heading, distance, r) && lo <= at <= hi && !entered
      requires windowLow as int == r.lo && windowHigh as int == r.hi
      modifies this`entered
      ensures reached ==> left >= 0 && Leg(r, old(Here(at)), distance as int, Here(to), left as int)
      ensures !reached ==> !entered && left == distance && to == at
      ensures !reached && Gap(r, old(Here(at))) > 0 ==> (distance as int) < Gap(r, old(Here(at)))
    {
      hide LegsLeft, Nanosecond, Travelled, Room, Span;
      ghost var e := Here(at);
      var gap: i128 :=
        if heading > 0 && at < windowLow then windowLow - at
        else if heading < 0 && at > windowHigh then at - windowHigh
        else 0;
      reached, left, to := gap > 0 && distance >= gap, distance, at;
      if reached {
        TravelToWindow(r, e, distance as int);
        to := at + Signed(heading, gap);
        left := distance - gap;
        entered := true;
        assert Here(to) == Moved(r, e, gap as int).(entered := true);
      }
    }

    /** One turn of the loop: enters the window the playhead stands in, and
        travels one leg. */
    method TravelLeg(at: i128, distance: i128, length: i64, ghost r: Rules) returns (left: i128, to: i128)
      requires r == RulesOf(View(), length) && length >= 0 && distance > 0 && !ended
      requires -0x8000_0000_0000_0000 <= at < 0x8000_0000_0000_0000
      modifies this`reversed, this`turned, this`entered, this`ended
      ensures left >= 0 && Leg(r, Enter(r, old(Here(at))), distance as int, Here(to), left as int)
    {
      var windowLow, windowHigh, lo, hi, heading := Face(at, distance, length, r);
      if at < lo || at > hi {
        if (at < lo) == (heading > 0) {
          left, to := TravelToward(at, lo, hi, heading, distance, r);
        } else {
          left, to := TravelAway(at, lo, hi, heading, distance, r);
        }
        return;
      }
      if !entered {
        var reached;
        reached, left, to := TravelIntoWindow(at, windowLow, windowHigh, heading, distance, r, lo, hi);
        if reached {
          return;
        }
      }
      var room := if heading > 0 then hi - at else at - lo;
      if distance <= room {
        left := 0;
        to := TravelOn(at, lo, hi, heading, distance, r);
      } else {
        left, to := TravelPast(at, lo, hi, heading, distance, room, r);
      }
    }

    /**
     Takes the playhead `distance` nanoseconds onward, through every wrap and
     turn on the way, in at most five turns of the loop however far that is.
     No sum leaves the `i128` it is in, and what it ends on fits an `i64`.
     */
    method Travel(distance: i128, length: i64) returns (ghost turns: nat)
      modifies this`position, this`reversed, this`turned, this`entered, this`ended
      ensures View() == old(View()).(head := Travelled(RulesOf(old(View()), length), old(View().head),
                                                       Max(0, distance as int)))
      ensures turns <= 5
    {
      hide LegsLeft, Travelled;
      var length := NotBelowZero(length);
      var at := position as i128;
      var left := if distance < 0 then 0 else distance;
      ghost var r := RulesOf(View(), length);
      ghost var start, whole := View().head, left as int;
      turns := 0;
      while left > 0 && !ended
        invariant left >= 0
        invariant Travelled(r, Here(at), left as int) == Travelled(r, start, whole)
        invariant InHull(r, start.position, at as int)
        invariant turns + LegsLeft(r, Here(at), left as int) <= 5
        decreases LegsLeft(r, Here(at), left as int)
      {
        turns := turns + 1;
        TravelEntering(r, Here(at), left as int);
        left, at := TravelLeg(at, left, length, r);
      }
      TravelNothing(r, Here(at), left as int);
      position := at as i64;
    }

    /** Moves the playhead with the clock to device time `to`. */
    method Advance(to: i64, length: i64)
      requires Valid()
      modifies this
      ensures Valid() && View() == Advanced(old(View()), to, length)
    {
      AdvancedIsValid(View(), to, length);
      if now.Some? && to < now.value {
        return;
      }
      now := Some(to);
      if state != Playing {
        return;
      }
      if clock.Waiting? {
        if to < clock.at {
          return;
        }
        clock := From(clock.at, 0);
      }
      if clock.From? {
        var total := Speed.Travel(Elapsed(clock.from, to), speed);
        var distance := total - clock.travelled;
        clock := From(clock.from, total);
        var _ := Travel(distance, length);
      }
    }

    method StartAfresh()
      modifies this`reversed, this`turned, this`entered, this`ended
      ensures View() == old(View()).(head := Afresh(old(View()).head))
    {
      reversed, turned, entered, ended := false, false, false, false;
    }

    method RestartClock(at: i64)
      modifies this`clock
      ensures View() == old(View()).(clock := Restarted(old(clock), at))
    {
      if clock.From? {
        clock := From(at, 0);
      }
    }

    /** Starts playing from where the player is. */
    method Play(at: i64, length: i64)
      requires Valid()
      modifies this
      ensures Valid() && View() == Played(old(View()), at, length)
    {
      Advance(at, length);
      state := Playing;
      StartAfresh();
      clock := From(at, 0);
    }

    /** Starts playing at device time `start`. */
    method PlayAt(at: i64, start: i64, length: i64)
      requires Valid()
      modifies this
      ensures Valid() && View() == PlayedAt(old(View()), at, start, length)
    {
      Advance(at, length);
      state := Playing;
      StartAfresh();
      clock := Waiting(start);
    }

    method Pause(at: i64, length: i64)
      requires Valid()
      modifies this
      ensures Valid() && View() == PausedThere(old(View()), at, length)
    {
      Advance(at, length);
      state := Paused;
      clock := Idle;
    }

    method Stop(at: i64, length: i64)
      requires Valid()
      modifies this
      ensures Valid() && View() == StoppedAtStart(old(View()), at, length)
    {
      Advance(at, length);
      state := Stopped;
      clock := Idle;
      var lo, _ := BoundsOfWindow(length);
      position := lo;
      StartAfresh();
    }

    method Seek(at: i64, to: i64, length: i64)
      requires Valid()
      modifies this
      ensures Valid() && View() == Sought(old(View()), at, to, length)
    {
      Advance(at, length);
      position := to;
      StartAfresh();
      RestartClock(at);
    }

    /** A speed of the other sign starts the rules afresh. */
    method SetSpeed(at: i64, to: Speed.Float, length: i64)
      requires Valid() && to.Valid()
      modifies this
      ensures Valid() && View() == WithSpeed(old(View()), at, to, length)
    {
      Advance(at, length);
      if to.BelowZero() != speed.BelowZero() {
        StartAfresh();
      }
      speed := to;
      RestartClock(at);
    }

    method SetMode(to: Mode)
      requires Valid()
      modifies this`mode
      ensures Valid() && View() == old(View()).(mode := to)
    {
      mode := to;
    }

    method SetWindow(at: i64, start: i64, end: Option<i64>, length: i64)
      requires Valid()
      modifies this
      ensures Valid() && View() == WithWindow(old(View()), at, start, end, length)
    {
      Advance(at, length);
      windowStart, windowEnd := start, end;
      entered := false;
    }

    method SetReversed(at: i64, to: bool, length: i64)
      requires Valid()
      modifies this
      ensures Valid() && View() == WithReversed(old(View()), at, to, length)
    {
      Advance(at, length);
      reversed := to;
      turned := turned || to;
    }
  }
}
