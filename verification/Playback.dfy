/** Where a player stands after its commands, told from its fields alone. */
module Playback {
  import opened Integers
  import Speed
  import opened Transport
  import opened Players

  // What a player owes, which way it heads and what its window is are read
  // off the fields here; the rules and the travel they decide are not named
  // in what is stated.

  /** `end` is where the window ends: as set, or at the length. */
  ghost predicate EndsAt(s: Standing, length: i64, end: int) {
    if s.windowEnd.Some? then end == s.windowEnd.value as int
    else end == if length >= 0 then length as int else 0
  }

  /** The window is `lo` to `hi`. */
  ghost predicate Window(s: Standing, length: i64, lo: int, hi: int) {
    && lo <= hi
    && ((EndsAt(s, length, hi) && lo == s.windowStart as int) || (EndsAt(s, length, lo) && hi == s.windowStart as int))
  }

  /** Playing and started, the player has `owed` nanoseconds to go by `to`. */
  ghost predicate Owes(s: Standing, to: i64, owed: nat) {
    && s.Valid()
    && s.state == Playing
    && (s.now.Some? ==> s.now.value <= to)
    && match s.clock
       case Idle => false
       case Waiting(at) => at <= to && owed == Speed.Travel((to as i128) - (at as i128), s.speed) as int
       case From(from, travelled) =>
         owed == Speed.Travel((to as i128) - (from as i128), s.speed) as int - travelled as int
  }

  /** Towards later positions: a speed of either sign, reversed or not. */
  predicate Forwards(s: Standing) {
    s.head.reversed == (s.speed.Finite? && s.speed.negative)
  }

  /** The mode stops the player at the end of the window. */
  predicate Ends(s: Standing) {
    s.mode == Once || (s.mode == Bounce && s.head.turned)
  }

  /** What a moving player's travel is of, and that only a speed there is moves it. */
  lemma UnderRules(s: Standing, to: i64, length: i64, owed: nat, lo: int, hi: int) returns (r: Rules)
    requires Owes(s, to, owed) && Window(s, length, lo, hi)
    ensures r.Valid() && r == Rules(s.mode, lo, hi, if length >= 0 then length as int else 0, s.speed.AtLeastZero())
    ensures Advanced(s, to, length).head == Travelled(r, s.head, owed)
    ensures owed > 0 ==> Forward(r, s.head) == Forwards(s)
  {
    hide Travelled;
    r := RulesOf(s, length);
    assert s.clock.From? ==> Speed.Travel(Elapsed(s.clock.from, to), s.speed) as int >= 0;
  }

  /** Owing no more than there is to the window's end ahead, a player inside its
      window moves by what it owes: onward at a speed not below zero, back at
      one below zero, and the other way round when it is reversed. */
  lemma MovesWithin(s: Standing, to: i64, length: i64, owed: nat, lo: int, hi: int)
    requires Owes(s, to, owed) && Window(s, length, lo, hi) && !s.head.ended
    requires lo <= s.head.position <= hi && owed > 0
    ensures var h := Advanced(s, to, length).head;
            && (Forwards(s) && owed <= hi - s.head.position ==>
                  h == Head(s.head.position + owed, s.head.reversed, s.head.turned, true,
                            s.head.position + owed == hi && Ends(s)))
            && (!Forwards(s) && owed <= s.head.position - lo ==>
                  h == Head(s.head.position - owed, s.head.reversed, s.head.turned, true,
                            s.head.position - owed == lo && Ends(s)))
  {
    hide Travelled, LegsLeft;
    var r := UnderRules(s, to, length, owed, lo, hi);
    var h := Enter(r, s.head);
    TravelEntering(r, s.head, owed);
    if owed <= Room(r, h) {
      TravelInside(r, h, owed);
    }
  }

  /** `p` is `far` from the window's end behind a player heading `forwards`. */
  predicate IsFrom(p: int, lo: int, hi: int, forwards: bool, far: int) {
    if forwards then p == lo + far else p == hi - far
  }

  /**
   Where a window `span` long leaves a player that goes `far` in all from the
   end behind it: `gone` from that end, turned round or not, ended or not.
   */
  predicate LandsAt(mode: Mode, turned: bool, span: int, far: int, gone: int, turns: bool, ends: bool)
    requires span > 0
  {
    match mode
    case Once => gone == Min(far, span) && !turns && ends == (far >= span)
    case Loop => gone == (far - 1) % span + 1 && !turns && !ends
    case Bounce =>
      if turned then gone == Min(far, span) && !turns && ends == (far >= span)
      else gone == (if far <= span then far else Max(2 * span - far, 0)) && turns == (far > span)
           && ends == (far >= 2 * span)
    case PingPong =>
      var round := (far - 1) % (2 * span) + 1;
      gone == (if round <= span then round else 2 * span - round) && turns == (round > span) && !ends
  }

  /** A landing tells of itself from the end behind. */
  ghost predicate LandingIs(r: Rules, h: Head, owed: nat, far: int, gone: int)
    requires r.lo < r.hi && Span(r, h) > 0
  {
    var landed := Landing(r, h, owed);
    && LandsAt(r.mode, h.turned, r.hi - r.lo, far, gone, landed.reversed != h.reversed, landed.ended)
    && landed.entered && (landed.turned <==> h.turned || (r.mode in {Bounce, PingPong} && far > r.hi - r.lo))
  }

  lemma StraightLanding(r: Rules, h: Head, owed: nat, far: int, gone: int)
    requires r.lo < r.hi && h.entered && !h.ended && owed > 0 && r.mode in {Once, Loop}
    requires IsFrom(h.position, r.lo, r.hi, Forward(r, h), far - owed) && owed <= far
    requires IsFrom(Landing(r, h, owed).position, r.lo, r.hi, Forward(r, h), gone)
    ensures LandingIs(r, h, owed, far, gone)
  {
  }

  lemma BouncedLanding(r: Rules, h: Head, owed: nat, far: int, gone: int)
    requires r.lo < r.hi && h.entered && !h.ended && owed > 0 && r.mode == Bounce
    requires IsFrom(h.position, r.lo, r.hi, Forward(r, h), far - owed) && owed <= far
    requires IsFrom(Landing(r, h, owed).position, r.lo, r.hi, Forward(r, h), gone)
    ensures LandingIs(r, h, owed, far, gone)
  {
    assert Phase(r, h) + owed == far;
  }

  lemma ReflectedLanding(r: Rules, h: Head, owed: nat, far: int, gone: int)
    requires r.lo < r.hi && h.entered && !h.ended && owed > 0 && r.mode == PingPong
    requires IsFrom(h.position, r.lo, r.hi, Forward(r, h), far - owed) && owed <= far
    requires IsFrom(Landing(r, h, owed).position, r.lo, r.hi, Forward(r, h), gone)
    ensures LandingIs(r, h, owed, far, gone)
  {
    assert Phase(r, h) + owed == far;
    if far <= r.hi - r.lo {
      RemainderBelow(far - 1, 2 * (r.hi - r.lo));
    }
  }

  /** However much it owes, a player inside a window of some length is where
      the mode takes it: held at the end, wrapped, or turned back. */
  lemma LandsWithin(s: Standing, to: i64, length: i64, owed: nat, lo: int, hi: int, far: int, gone: int)
    requires Owes(s, to, owed) && Window(s, length, lo, hi) && !s.head.ended
    requires lo <= s.head.position <= hi && lo < hi && owed > 0
    requires IsFrom(s.head.position, lo, hi, Forwards(s), far - owed)
    requires IsFrom(Advanced(s, to, length).head.position, lo, hi, Forwards(s), gone)
    ensures var h := Advanced(s, to, length).head;
            && LandsAt(s.mode, s.head.turned, hi - lo, far, gone, h.reversed != s.head.reversed, h.ended)
            && h.entered && (h.turned <==> s.head.turned || (s.mode in {Bounce, PingPong} && far > hi - lo))
  {
    hide Travelled, LegsLeft, Landing, Advanced, LandsAt, Window, Owes;
    var r := UnderRules(s, to, length, owed, lo, hi);
    var h := Enter(r, s.head);
    TravelEntering(r, s.head, owed);
    LandsInClosedForm(r, h, owed);
    match s.mode
    case Bounce => BouncedLanding(r, h, owed, far, gone);
    case PingPong => ReflectedLanding(r, h, owed, far, gone);
    case _ => StraightLanding(r, h, owed, far, gone);
  }

  /** A window of no length holds a player that stands in it. */
  lemma HoldsInPoint(s: Standing, to: i64, length: i64, owed: nat, lo: int)
    requires Owes(s, to, owed) && Window(s, length, lo, lo) && !s.head.ended
    requires s.head.position == lo && owed > 0
    ensures Advanced(s, to, length).head == s.head.(entered := true, ended := Ends(s))
  {
    hide Travelled, LegsLeft;
    var r := UnderRules(s, to, length, owed, lo, lo);
    var h := Enter(r, s.head);
    TravelEntering(r, s.head, owed);
    TravelToAhead(r, h, owed);
  }

  // Outside the window, before it was entered: the whole length and the
  // window, from 0 on, are what bounds the player.

  /** What bounds a player: its window once entered, and before that all from
      the least to the greatest of its window, 0 and its length. */
  predicate Bounds(s: Standing, length: i64, lo: int, hi: int, least: int, most: int) {
    if s.head.entered then least == lo && most == hi
    else least == Min(lo, 0) && most == Max(hi, Max(length as int, 0))
  }

  /** How far ahead of `a` the player finds `b`. */
  function Toward(s: Standing, a: int, b: int): int {
    if Forwards(s) then b - a else a - b
  }

  function OnwardFrom(s: Standing, a: int, far: int): int {
    if Forwards(s) then a + far else a - far
  }

  /** The end of `lo` to `hi` a player comes to last, and the one it comes to first. */
  function Fore(s: Standing, lo: int, hi: int): int {
    if Forwards(s) then hi else lo
  }

  function Rear(s: Standing, lo: int, hi: int): int {
    if Forwards(s) then lo else hi
  }

  /** Outside its bounds and heading for them, it moves up to them. */
  lemma ComesToBounds(s: Standing, to: i64, length: i64, owed: nat, lo: int, hi: int, least: int, most: int)
    requires Owes(s, to, owed) && Window(s, length, lo, hi) && !s.head.ended && Bounds(s, length, lo, hi, least, most)
    requires owed <= Toward(s, s.head.position, Rear(s, least, most))
    ensures Advanced(s, to, length).head == s.head.(position := OnwardFrom(s, s.head.position, owed))
  {
    hide Travelled, LegsLeft, Advanced;
    var r := UnderRules(s, to, length, owed, lo, hi);
    if owed == 0 {
      TravelNothing(r, s.head, owed);
    } else {
      TravelToBounds(r, s.head, owed, owed);
      TravelNothing(r, Moved(r, s.head, owed), 0);
    }
  }

  /** Into the window ahead and on inside it. */
  lemma EntersOnTheWay(r: Rules, h: Head, n: nat)
    requires r.Valid() && !h.ended && !h.entered && Inside(r, h) && Gap(r, h) >= 0
    requires 0 < n <= Gap(r, h) + (r.hi - r.lo)
    ensures Travelled(r, h, n) == Moved(r, h, n).(entered := n >= Gap(r, h),
                                                  ended := n == Gap(r, h) + (r.hi - r.lo) && r.lo < r.hi && Stops(r, h))
  {
    hide Travelled, LegsLeft;
    var gap := Gap(r, h);
    if n < gap {
      TravelInside(r, h, n);
    } else if gap > 0 {
      var near := Moved(r, h, gap).(entered := true);
      TravelToWindow(r, h, n);
      if n == gap {
        TravelNothing(r, near, 0);
      } else {
        TravelInside(r, near, n - gap);
      }
    } else {
      TravelEntering(r, h, n);
      TravelInside(r, Enter(r, h), n);
    }
  }

  /** Heading for its window from within the whole, it moves into it and on
      inside it, and has entered it once it reached the near end. */
  lemma ComesToWindow(s: Standing, to: i64, length: i64, owed: nat, lo: int, hi: int, least: int, most: int)
    requires Owes(s, to, owed) && Window(s, length, lo, hi) && !s.head.ended && Bounds(s, length, lo, hi, least, most)
    requires !s.head.entered && least <= s.head.position <= most && Toward(s, s.head.position, Rear(s, lo, hi)) >= 0
    requires 0 < owed <= Toward(s, s.head.position, Fore(s, lo, hi))
    ensures Advanced(s, to, length).head
            == Head(OnwardFrom(s, s.head.position, owed), s.head.reversed, s.head.turned,
                    owed >= Toward(s, s.head.position, Rear(s, lo, hi)),
                    owed == Toward(s, s.head.position, Fore(s, lo, hi)) && lo < hi && Ends(s))
  {
    hide Travelled, LegsLeft, Advanced;
    var r := UnderRules(s, to, length, owed, lo, hi);
    EntersOnTheWay(r, s.head, owed);
  }

  /** Past its window it moves up to the far end of the whole, which is an end
      as the window's is. */
  lemma PassesWindow(s: Standing, to: i64, length: i64, owed: nat, lo: int, hi: int, least: int, most: int)
    requires Owes(s, to, owed) && Window(s, length, lo, hi) && !s.head.ended && Bounds(s, length, lo, hi, least, most)
    requires !s.head.entered && Toward(s, s.head.position, Fore(s, lo, hi)) < 0
    requires 0 < owed <= Toward(s, s.head.position, Fore(s, least, most))
    ensures Advanced(s, to, length).head
            == s.head.(position := OnwardFrom(s, s.head.position, owed),
                       ended := owed == Toward(s, s.head.position, Fore(s, least, most)) && Ends(s))
  {
    hide Travelled, LegsLeft, Advanced;
    var r := UnderRules(s, to, length, owed, lo, hi);
    TravelInside(r, s.head, owed);
  }

  /** At the far end of the bounds and not ended, before the window was entered. */
  lemma PlacedThere(r: Rules, h: Head, owed: nat, more: nat)
    requires r.Valid() && !h.ended && !h.entered && Span(r, h) > 0
    requires Along(r, h, (if Forward(r, h) then r.hi else r.lo) - h.position) < 0
    requires more == owed - Max(Room(r, h), 0) > 0 && !Stops(r, h)
    ensures var placed := Placed(r, AtAhead(r, h));
            && Gap(r, placed) >= 0
            && (more <= Gap(r, placed) + (r.hi - r.lo) ==>
                  Travelled(r, h, owed) == Moved(r, placed, more).(entered := more >= Gap(r, placed),
                                                                   ended := more == Gap(r, placed) + (r.hi - r.lo)
                                                                            && r.lo < r.hi && Stops(r, placed)))
  {
    hide Travelled, LegsLeft, Nanosecond;
    var placed := Placed(r, AtAhead(r, h));
    TravelToAhead(r, h, owed);
    if more <= Gap(r, placed) + (r.hi - r.lo) {
      EntersOnTheWay(r, placed, more);
    }
  }

  lemma HeldThere(r: Rules, h: Head, owed: nat)
    requires r.Valid() && !h.ended && !h.entered
    requires Along(r, h, (if Forward(r, h) then r.hi else r.lo) - h.position) < 0
    requires owed > Max(Room(r, h), 0) && (Stops(r, h) || Span(r, h) == 0)
    ensures Travelled(r, h, owed) == AtAhead(r, h).(ended := Stops(r, h))
  {
    hide Travelled, LegsLeft, Nanosecond;
    TravelToAhead(r, h, owed);
  }

  /** At the far end of the whole, or past it, a mode that ends holds a player. */
  lemma EndsPastWindow(s: Standing, to: i64, length: i64, owed: nat, lo: int, hi: int, least: int, most: int)
    requires Owes(s, to, owed) && Window(s, length, lo, hi) && !s.head.ended && Bounds(s, length, lo, hi, least, most)
    requires !s.head.entered && Toward(s, s.head.position, Fore(s, lo, hi)) < 0
    requires owed > Max(Toward(s, s.head.position, Fore(s, least, most)), 0) && (Ends(s) || least == most)
    ensures Advanced(s, to, length).head == s.head.(position := Fore(s, least, most), ended := Ends(s))
  {
    hide Travelled, LegsLeft, Advanced, Nanosecond, Window, Owes;
    var r := UnderRules(s, to, length, owed, lo, hi);
    HeldThere(r, s.head, owed);
  }

  /** A loop starts it again from the other end, and it goes on from there into
      its window and up to the window's end. */
  lemma LoopsPastWindow(s: Standing, to: i64, length: i64, owed: nat, lo: int, hi: int, least: int, most: int,
                        more: int)
    requires Owes(s, to, owed) && Window(s, length, lo, hi) && !s.head.ended && Bounds(s, length, lo, hi, least, most)
    requires !s.head.entered && Toward(s, s.head.position, Fore(s, lo, hi)) < 0 && s.mode == Loop && least < most
    requires more == owed - Max(Toward(s, s.head.position, Fore(s, least, most)), 0)
    requires 0 < more <= Toward(s, Rear(s, least, most), Fore(s, lo, hi))
    ensures Advanced(s, to, length).head
            == s.head.(position := OnwardFrom(s, Rear(s, least, most), more),
                       entered := more >= Toward(s, Rear(s, least, most), Rear(s, lo, hi)))
  {
    hide Travelled, LegsLeft, Advanced, Nanosecond, Window, Owes;
    var r := UnderRules(s, to, length, owed, lo, hi);
    PlacedThere(r, s.head, owed, more);
  }

  /** Else it turns round, and comes back to its window and through it. */
  lemma TurnsPastWindow(s: Standing, to: i64, length: i64, owed: nat, lo: int, hi: int, least: int, most: int,
                        more: int)
    requires Owes(s, to, owed) && Window(s, length, lo, hi) && !s.head.ended && Bounds(s, length, lo, hi, least, most)
    requires !s.head.entered && Toward(s, s.head.position, Fore(s, lo, hi)) < 0
    requires s.mode in {Bounce, PingPong} && !Ends(s) && least < most
    requires more == owed - Max(Toward(s, s.head.position, Fore(s, least, most)), 0)
    requires 0 < more <= Toward(s, Rear(s, lo, hi), Fore(s, least, most))
    ensures Advanced(s, to, length).head
            == Head(OnwardFrom(s, Fore(s, least, most), -more), !s.head.reversed, true,
                    more >= Toward(s, Fore(s, lo, hi), Fore(s, least, most)),
                    s.mode == Bounce && more == Toward(s, Rear(s, lo, hi), Fore(s, least, most)) && lo < hi)
  {
    hide Travelled, LegsLeft, Advanced, Nanosecond, Window, Owes;
    var r := UnderRules(s, to, length, owed, lo, hi);
    PlacedThere(r, s.head, owed, more);
  }

  /** Past the end of a window it entered, as when the length shrank, it goes
      on as from that end. */
  lemma PastTheEnd(s: Standing, to: i64, length: i64, owed: nat, lo: int, hi: int)
    requires Owes(s, to, owed) && Window(s, length, lo, hi) && !s.head.ended && s.head.entered && owed > 0
    requires Toward(s, s.head.position, Fore(s, lo, hi)) < 0
    ensures Advanced(s, to, length).head
            == Advanced(s.(head := s.head.(position := Fore(s, lo, hi))), to, length).head
  {
    hide Travelled, LegsLeft, Advanced, Nanosecond;
    var r := UnderRules(s, to, length, owed, lo, hi);
    var at := s.(head := s.head.(position := Fore(s, lo, hi)));
    var same := UnderRules(at, to, length, owed, lo, hi);
    TravelToAhead(r, s.head, owed);
    TravelToAhead(r, at.head, owed);
  }

  // When a player moves, and what a command makes of the travel after it.

  /** Paused, stopped, waiting for its start, ended, or told a time gone by, a
      player stays where it is. */
  lemma StaysPut(s: Standing, to: i64, length: i64)
    requires s.Valid()
    requires s.state != Playing || s.clock.Idle? || (s.clock.Waiting? && to < s.clock.at) || s.head.ended
             || (s.now.Some? && to < s.now.value)
    ensures Advanced(s, to, length).head == s.head
  {
    if s.head.ended {
      var r := RulesOf(s, length);
      forall distance: nat ensures Travelled(r, s.head, distance) == s.head {
        TravelNothing(r, s.head, distance);
      }
    }
  }

  /** Moved to a time on the way, it owes what is left. */
  lemma OwesTheRest(s: Standing, first: i64, to: i64, length: i64, owed: nat, whole: nat)
    requires Owes(s, first, owed) && Owes(s, to, whole) && first <= to
    ensures owed <= whole && Owes(Advanced(s, first, length), to, whole - owed)
    ensures var next := Advanced(s, first, length);
            next == s.(now := Some(first), clock := next.clock, head := next.head)
  {
    AdvancedIsValid(s, first, length);
    Speed.TravelMonotone(Elapsed(Anchor(s), first), Elapsed(Anchor(s), to), s.speed);
  }

  /** The player's clock runs at `at`. */
  predicate Started(s: Standing, at: i64) {
    && s.state == Playing
    && (s.clock.From? || (s.clock.Waiting? && s.clock.at <= at && (s.now.Some? ==> s.now.value <= at)))
  }

  predicate Negative(speed: Speed.Float) {
    (speed.Finite? && speed.negative && speed.mantissa > 0) || (speed.Infinite? && speed.below)
  }

  /** Played at `at`, a player is where the clock moved it, starts its rules
      afresh, and owes from `at` on. */
  lemma PlaysFrom(s: Standing, at: i64, to: i64, length: i64)
    requires s.Valid() && at <= to && (s.now.Some? ==> s.now.value <= to)
    ensures var next := Played(s, at, length);
            && next.head == Head(Advanced(s, at, length).head.position, false, false, false, false)
            && Owes(next, to, Speed.Travel((to as i128) - (at as i128), s.speed) as int)
            && next.speed == s.speed && next.mode == s.mode
            && next.windowStart == s.windowStart && next.windowEnd == s.windowEnd
  {
    hide Travelled;
    AdvancedIsValid(s, at, length);
  }

  /**
   Given a speed, a player is where the old one took it, and owes from there
   what the new one makes of the time since.  A speed of the other sign starts
   its rules afresh, one of the same sign leaves them.
   */
  lemma SpeedFrom(s: Standing, at: i64, speed: Speed.Float, to: i64, length: i64)
    requires s.Valid() && speed.Valid() && at <= to && (s.now.Some? ==> s.now.value <= to)
    ensures var stood, next := Advanced(s, at, length), WithSpeed(s, at, speed, length);
            && next.head == (if Negative(speed) == Negative(s.speed) then stood.head
                             else Head(stood.head.position, false, false, false, false))
            && (Started(s, at) ==> Owes(next, to, Speed.Travel((to as i128) - (at as i128), speed) as int))
            && next == stood.(head := next.head, speed := speed, clock := next.clock)
            && (!stood.clock.From? ==> next.clock == s.clock)
  {
    hide Travelled;
    AdvancedIsValid(s, at, length);
  }

  /** So inside its window it moves on from there at the new speed. */
  lemma MovesAtNewSpeed(s: Standing, at: i64, speed: Speed.Float, to: i64, length: i64, lo: int, hi: int)
    requires s.Valid() && speed.Valid() && at <= to && (s.now.Some? ==> s.now.value <= to)
    requires Started(s, at) && Window(s, length, lo, hi) && lo <= Advanced(s, at, length).head.position <= hi
    requires !Advanced(s, at, length).head.ended
    ensures var stood, next := Advanced(s, at, length).head, WithSpeed(s, at, speed, length);
            var gone := Speed.Travel((to as i128) - (at as i128), speed) as int;
            var turned := stood.reversed && Negative(speed) == Negative(s.speed);
            && (turned == Negative(speed) && gone <= hi - stood.position ==>
                  Advanced(next, to, length).head.position == stood.position + gone)
            && (turned != Negative(speed) && gone <= stood.position - lo ==>
                  Advanced(next, to, length).head.position == stood.position - gone)
  {
    hide Travelled;
    SpeedFrom(s, at, speed, to, length);
    var next := WithSpeed(s, at, speed, length);
    assert Window(next, length, lo, hi);
    hide Advanced, WithSpeed, Window;
    var gone := Speed.Travel((to as i128) - (at as i128), speed) as int;
    if gone > 0 {
      MovesWithin(next, to, length, gone, lo, hi);
    } else {
      var r := UnderRules(next, to, length, gone, lo, hi);
      TravelNothing(r, next.head, gone);
    }
  }

  /** Given a window, a player stays where it is, has not entered it, and owes
      what it owed. */
  lemma WindowFrom(s: Standing, at: i64, start: i64, end: Option<i64>, to: i64, length: i64, owed: nat)
    requires s.Valid() && at <= to
    ensures var stood, next := Advanced(s, at, length), WithWindow(s, at, start, end, length);
            && next.head == stood.head.(entered := false)
            && (Owes(next, to, owed) <==> Owes(stood, to, owed))
            && next == stood.(head := next.head, windowStart := start, windowEnd := end)
  {
    hide Travelled;
    AdvancedIsValid(s, at, length);
  }

  /** Outside it and heading for it, it goes on over the whole length as far as
      the new window, and on inside it. */
  lemma ComesToNewWindow(s: Standing, at: i64, start: i64, end: Option<i64>, to: i64, length: i64, owed: nat,
                         lo: int, hi: int, least: int, most: int)
    requires s.Valid() && at <= to && Owes(Advanced(s, at, length), to, owed)
    requires var next := WithWindow(s, at, start, end, length);
             && Window(next, length, lo, hi) && Bounds(next, length, lo, hi, least, most) && !next.head.ended
             && least <= next.head.position <= most && Toward(next, next.head.position, Rear(next, lo, hi)) >= 0
             && 0 < owed <= Toward(next, next.head.position, Fore(next, lo, hi))
    ensures var next := WithWindow(s, at, start, end, length);
            var h := Advanced(next, to, length).head;
            && h.position == OnwardFrom(next, Advanced(s, at, length).head.position, owed)
            && h.entered == (owed >= Toward(next, next.head.position, Rear(next, lo, hi)))
  {
    hide Travelled, Advanced, WithWindow;
    WindowFrom(s, at, start, end, to, length, owed);
    ComesToWindow(WithWindow(s, at, start, end, length), to, length, owed, lo, hi, least, most);
  }

  /** Reversed, a player heads the other way from where it is, as one that turned. */
  lemma ReversedFrom(s: Standing, at: i64, reversed: bool, to: i64, length: i64, owed: nat)
    requires s.Valid() && at <= to
    ensures var stood, next := Advanced(s, at, length), WithReversed(s, at, reversed, length);
            && next.head == Head(stood.head.position, reversed, stood.head.turned || reversed, stood.head.entered,
                                 stood.head.ended)
            && (Owes(next, to, owed) <==> Owes(stood, to, owed))
            && next == stood.(head := next.head)
  {
    hide Travelled;
    AdvancedIsValid(s, at, length);
  }

  /** Sought, a player is there and owes from then on, if it owed at all. */
  lemma SeeksFrom(s: Standing, at: i64, position: i64, to: i64, length: i64)
    requires s.Valid() && at <= to && (s.now.Some? ==> s.now.value <= to)
    ensures var next := Sought(s, at, position, length);
            && next.head == Head(position as int, false, false, false, false)
            && (Started(s, at) ==> Owes(next, to, Speed.Travel((to as i128) - (at as i128), s.speed) as int))
            && next.speed == s.speed && next.mode == s.mode
            && next.windowStart == s.windowStart && next.windowEnd == s.windowEnd
  {
    hide Travelled;
    AdvancedIsValid(s, at, length);
  }

  /** Stopped, a player is at its window's lower end and waits there. */
  lemma StopsAtStart(s: Standing, at: i64, length: i64)
    requires s.Valid()
    ensures var next := StoppedAtStart(s, at, length);
            var end := if s.windowEnd.Some? then s.windowEnd.value else length;
            && next.head == Head(Min(s.windowStart as int, end as int), false, false, false, false)
            && next.state == Stopped && next.clock == Idle
            && next == Advanced(s, at, length).(head := next.head, state := Stopped, clock := Idle)
  {
    hide Travelled;
  }
}
