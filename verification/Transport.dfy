/** The transport rules of a player, one nanosecond of travel at a time. */
module Transport {
  import opened Integers

  // A playhead stands on a timeline and heads one way along it.  `Nanosecond`
  // says what one nanosecond of travel does to it, and `Nanoseconds` repeats
  // that: the reference the player's loop, which never steps nanosecond by
  // nanosecond, is proved against.

  datatype Mode = Once | Loop | Bounce | PingPong

  /** What bounds a player's travel: its mode, its window with the ends in
      order, its length, and the sign of its speed. */
  datatype Rules = Rules(mode: Mode, lo: int, hi: int, length: nat, forward: bool) {
    predicate Valid() { lo <= hi }

    /** A window and a length of nothing at the start of the timeline. */
    predicate Degenerate() { lo == 0 && hi == 0 && length == 0 }
  }

  datatype Head = Head(position: int, reversed: bool, turned: bool, entered: bool, ended: bool)

  predicate Forward(r: Rules, h: Head) {
    r.forward != h.reversed
  }

  /** `distance` along the heading. */
  function Along(r: Rules, h: Head, distance: int): int {
    if Forward(r, h) then distance else -distance
  }

  /** Whether the mode stops the playhead at the next bound it reaches. */
  predicate Stops(r: Rules, h: Head) {
    r.mode == Once || (r.mode == Bounce && h.turned)
  }

  /** A playhead inside its window has entered it. */
  function Enter(r: Rules, h: Head): Head {
    if !h.entered && r.lo <= h.position <= r.hi then h.(entered := true) else h
  }

  /** The bounds: the window once entered, the whole length and the window
      before. */
  function Low(r: Rules, h: Head): int {
    if h.entered then r.lo else Min(r.lo, 0)
  }

  function High(r: Rules, h: Head): int {
    if h.entered then r.hi else Max(r.hi, r.length)
  }

  function Ahead(r: Rules, h: Head): int {
    if Forward(r, h) then High(r, h) else Low(r, h)
  }

  function Behind(r: Rules, h: Head): int {
    if Forward(r, h) then Low(r, h) else High(r, h)
  }

  /** The end of the window the playhead would enter it by. */
  function NearEnd(r: Rules, h: Head): int {
    if Forward(r, h) then r.lo else r.hi
  }

  /** How far off the bound ahead is; not positive at the bound or past it. */
  function Room(r: Rules, h: Head): int {
    Along(r, h, Ahead(r, h) - h.position)
  }

  /** How far ahead the window is; not positive in it or past it. */
  function Gap(r: Rules, h: Head): int {
    Along(r, h, NearEnd(r, h) - h.position)
  }

  function Span(r: Rules, h: Head): int {
    High(r, h) - Low(r, h)
  }

  predicate Inside(r: Rules, h: Head) {
    Low(r, h) <= h.position <= High(r, h)
  }

  function Moved(r: Rules, h: Head, distance: int): Head {
    h.(position := h.position + Along(r, h, distance))
  }

  function AtAhead(r: Rules, h: Head): Head {
    h.(position := Ahead(r, h))
  }

  /** Where a wrap or a turn leaves a playhead at the bound ahead of it. */
  function Placed(r: Rules, h: Head): Head {
    if r.mode == Loop then h.(position := Behind(r, h))
    else h.(position := Ahead(r, h), reversed := !h.reversed, turned := true)
  }

  /** One nanosecond onward, with room ahead: it may enter the window, or
      reach the bound the mode stops at. */
  function Onward(r: Rules, h: Head): Head {
    var moved := Moved(r, h, 1);
    if !Inside(r, h) then moved
    else if !h.entered && moved.position == NearEnd(r, h) then moved.(entered := true)
    else moved.(ended := moved.position == Ahead(r, h) && Stops(r, h))
  }

  /** One nanosecond of travel. */
  function Nanosecond(r: Rules, h: Head): Head
    requires r.Valid()
    decreases if Enter(r, h).entered then 0 else 1, if Room(r, Enter(r, h)) > 0 then 0 else 1
  {
    var e := Enter(r, h);
    if e.ended then h
    else if Room(r, e) > 0 then Onward(r, e)
    else if Stops(r, e) then AtAhead(r, e).(ended := true)
    else if Span(r, e) == 0 then AtAhead(r, e)
    else Nanosecond(r, Placed(r, e))
  }

  function Nanoseconds(r: Rules, h: Head, n: nat): Head
    requires r.Valid()
    decreases n
  {
    if n == 0 then h else Nanoseconds(r, Nanosecond(r, h), n - 1)
  }

  lemma {:induction false} NanosecondsCompose(r: Rules, h: Head, a: nat, b: nat)
    requires r.Valid()
    ensures Nanoseconds(r, Nanoseconds(r, h, a), b) == Nanoseconds(r, h, a + b)
    decreases a
  {
    if a > 0 {
      NanosecondsCompose(r, Nanosecond(r, h), a - 1, b);
    }
  }

  lemma {:induction false} EndedStays(r: Rules, h: Head, n: nat)
    requires r.Valid() && h.ended
    ensures Nanoseconds(r, h, n) == h
  {
    if n > 0 {
      EndedStays(r, h, n - 1);
    }
  }

  // The legs of a travel: each moves many nanoseconds at once.

  /** Outside the bounds and heading for them. */
  lemma {:induction false} LegToBounds(r: Rules, h: Head, n: nat)
    requires r.Valid() && !h.ended && !Inside(r, h) && Room(r, h) > 0
    requires n <= Along(r, h, Behind(r, h) - h.position)
    ensures Nanoseconds(r, h, n) == Moved(r, h, n)
    decreases n
  {
    if n > 0 {
      var next := Moved(r, h, 1);
      assert Nanosecond(r, h) == next;
      if n > 1 {
        LegToBounds(r, next, n - 1);
      }
      assert Moved(r, next, n - 1) == Moved(r, h, n);
    }
  }

  /** Inside the bounds, the window entered, behind or not reached yet. */
  lemma {:induction false} LegInside(r: Rules, h: Head, n: nat)
    requires r.Valid() && !h.ended && Enter(r, h) == h && Inside(r, h)
    requires 0 < n <= Room(r, h)
    requires !h.entered && Gap(r, h) > 0 ==> n < Gap(r, h)
    ensures Nanoseconds(r, h, n) == Moved(r, h, n).(ended := n == Room(r, h) && Stops(r, h))
    decreases n
  {
    var next := Nanosecond(r, h);
    assert next == Moved(r, h, 1).(ended := Room(r, h) == 1 && Stops(r, h));
    if n > 1 {
      LegInside(r, next, n - 1);
      assert Moved(r, next, n - 1) == Moved(r, h, n);
    }
  }

  /** Up to the window ahead, which is entered. */
  lemma LegToWindow(r: Rules, h: Head)
    requires r.Valid() && !h.ended && !h.entered && Inside(r, h) && Gap(r, h) > 0
    ensures Nanoseconds(r, h, Gap(r, h)) == Moved(r, h, Gap(r, h)).(entered := true)
  {
    var gap := Gap(r, h);
    var near := Moved(r, h, gap - 1);
    if gap > 1 {
      LegInside(r, h, gap - 1);
    }
    NanosecondsCompose(r, h, gap - 1, 1);
    assert Nanosecond(r, near) == Moved(r, near, 1).(entered := true);
  }

  lemma StopAtBound(r: Rules, h: Head, n: nat)
    requires r.Valid() && !h.ended && Enter(r, h) == h && Room(r, h) <= 0 && Stops(r, h) && n > 0
    ensures Nanoseconds(r, h, n) == AtAhead(r, h).(ended := true)
  {
    EndedStays(r, AtAhead(r, h).(ended := true), n - 1);
  }

  /** At the bound of a window it entered and that is one point, a playhead stays. */
  lemma {:induction false} HeldAtBound(r: Rules, h: Head, n: nat)
    requires r.Valid() && !h.ended && h.entered && Room(r, h) <= 0 && !Stops(r, h) && n > 0
    requires Span(r, h) == 0
    ensures Nanoseconds(r, h, n) == AtAhead(r, h)
    decreases n
  {
    if n > 1 {
      HeldAtBound(r, AtAhead(r, h), n - 1);
    }
  }

  lemma PassedBound(r: Rules, h: Head, n: nat)
    requires r.Valid() && !h.ended && Enter(r, h) == h && Room(r, h) <= 0 && !Stops(r, h) && n > 0
    requires Span(r, h) > 0
    ensures Nanoseconds(r, h, n) == Nanoseconds(r, Placed(r, h), n)
  {
  }

  function Period(r: Rules, h: Head): int {
    if r.mode == Loop then Span(r, h) else 2 * Span(r, h)
  }

  /** From a bound to the other, and past it. */
  lemma AcrossTheSpan(r: Rules, h: Head, n: nat)
    requires r.Valid() && !h.ended && h.entered && r.mode in {Loop, PingPong}
    requires h.position == Behind(r, h) && 0 < Span(r, h) < n
    ensures Nanoseconds(r, h, n) == Nanoseconds(r, Placed(r, h.(position := Ahead(r, h))), n - Span(r, h))
  {
    var span := Span(r, h);
    LegInside(r, h, span);
    var at := Moved(r, h, span);
    NanosecondsCompose(r, h, span, n - span);
    PassedBound(r, at, n - span);
    assert at == h.(position := Ahead(r, h));
  }

  /** Whole periods from a bound travel to where they started. */
  lemma {:induction false} WholePeriods(r: Rules, h: Head, n: nat)
    requires r.Valid() && !h.ended && h.entered && r.mode in {Loop, PingPong}
    requires h.position == Behind(r, h) && Span(r, h) > 0 && n > 0
    requires r.mode == PingPong ==> h.turned
    ensures Nanoseconds(r, h, n) == Nanoseconds(r, h, (n - 1) % Period(r, h) + 1)
    decreases n
  {
    var span, period := Span(r, h), Period(r, h);
    if n > period {
      AcrossTheSpan(r, h, n);
      if r.mode == PingPong {
        AcrossTheSpan(r, Placed(r, h.(position := Ahead(r, h))), n - span);
      }
      WholePeriods(r, h, n - period);
      assert (n - period - 1) % period == (n - 1) % period by {
        RemainderOfDifference(n - 1, period);
      }
    } else {
      RemainderBelow(n - 1, period);
    }
  }

  // A whole travel.

  /** Entered, in a degenerate window, where being so changes nothing else. */
  function Inwards(r: Rules, h: Head): Head {
    if r.Degenerate() then h.(entered := true) else h
  }

  /** A playhead past the bound ahead of it. */
  predicate HeadsAway(r: Rules, h: Head) {
    !Inside(r, h) && Room(r, h) < 0
  }

  /** Whether a travel leaves a playhead having entered a degenerate window. */
  predicate EntersDegenerate(r: Rules, h: Head, distance: nat) {
    h.entered
    || (!h.ended && distance > 0 && (h.position == 0 || (!HeadsAway(r, h) && distance > Abs(h.position))))
  }

  /**
   Where `distance` nanoseconds of travel leave a playhead: where as many
   single ones do.  Whether it entered a degenerate window is decided by the
   whole travel: one that starts outside the window heading away is put on
   its bound without looking whether that enters it.
   */
  function Travelled(r: Rules, h: Head, distance: nat): Head
    requires r.Valid()
  {
    if r.Degenerate()
    then Nanoseconds(r, Inwards(r, h), distance).(entered := EntersDegenerate(r, h, distance))
    else Nanoseconds(r, h, distance)
  }

  /** In a degenerate window a playhead moves to 0 and stays there. */
  function Dwindled(r: Rules, h: Head, distance: nat): Head {
    if distance == 0 || h.ended then h
    else if HeadsAway(r, h) || distance > Abs(h.position) then h.(position := 0, ended := Stops(r, h))
    else Moved(r, h, distance)
  }

  lemma DegenerateTravel(r: Rules, h: Head, distance: nat)
    requires r.Valid() && r.Degenerate()
    ensures Travelled(r, h, distance) == Dwindled(r, h, distance).(entered := EntersDegenerate(r, h, distance))
  {
    var e := Inwards(r, h);
    var reach := Abs(h.position);
    if h.ended {
      EndedStays(r, e, distance);
    } else if distance > 0 {
      if HeadsAway(r, h) || reach == 0 {
        if Stops(r, e) {
          StopAtBound(r, e, distance);
        } else {
          HeldAtBound(r, e, distance);
        }
      } else if distance <= reach {
        LegToBounds(r, e, distance);
      } else {
        LegToBounds(r, e, reach);
        var at := Moved(r, e, reach);
        NanosecondsCompose(r, e, reach, distance - reach);
        if Stops(r, at) {
          StopAtBound(r, at, distance - reach);
        } else {
          HeldAtBound(r, at, distance - reach);
        }
      }
    }
  }

  /** The one playhead two travels leave unlike one: put on a degenerate
      window's bound by the first, it is found inside by the second. */
  predicate FoundLater(r: Rules, h: Head) {
    r.Degenerate() && !h.entered && !h.ended && HeadsAway(r, h) && !Stops(r, h)
  }

  lemma DwindlingComposes(r: Rules, h: Head, a: nat, b: nat)
    requires r.Valid() && r.Degenerate()
    ensures Dwindled(r, Dwindled(r, h, a), b) == Dwindled(r, h, a + b)
  {
  }

  lemma EnteringComposes(r: Rules, h: Head, a: nat, b: nat)
    requires r.Valid() && r.Degenerate()
    ensures EntersDegenerate(r, Dwindled(r, h, a).(entered := EntersDegenerate(r, h, a)), b)
            == (EntersDegenerate(r, h, a + b) || (FoundLater(r, h) && a > 0 && b > 0))
  {
  }

  lemma DwindlingIgnoresEntry(r: Rules, h: Head, entered: bool, distance: nat)
    requires r.Valid() && r.Degenerate()
    ensures Dwindled(r, h.(entered := entered), distance) == Dwindled(r, h, distance).(entered := entered)
  {
  }

  /**
   Step independence: travelling `a` then `b` leaves the playhead as
   travelling `a + b` does, but for whether a degenerate window counts as
   entered by one that started outside it heading away.
   */
  lemma StepIndependence(r: Rules, h: Head, a: nat, b: nat)
    requires r.Valid()
    ensures Travelled(r, Travelled(r, h, a), b) == Travelled(r, h, a + b)
            <==> !(FoundLater(r, h) && a > 0 && b > 0)
    ensures Travelled(r, Travelled(r, h, a), b).(entered := true) == Travelled(r, h, a + b).(entered := true)
  {
    if r.Degenerate() {
      DegenerateTravel(r, h, a);
      DegenerateTravel(r, Travelled(r, h, a), b);
      DegenerateTravel(r, h, a + b);
      DwindlingComposes(r, h, a, b);
      DwindlingIgnoresEntry(r, Dwindled(r, h, a), EntersDegenerate(r, h, a), b);
      EnteringComposes(r, h, a, b);
    } else {
      NanosecondsCompose(r, h, a, b);
    }
  }

  /** A looping player of no length, left of its window and playing
      backwards, stepped twice and once. */
  lemma TwoStepsEnterWhatOneDoesNot()
    ensures var r, h := Rules(Loop, 0, 0, 0, false), Head(-5, false, false, false, false);
            Travelled(r, Travelled(r, h, 1), 1).entered && !Travelled(r, h, 2).entered
  {
    var r, h := Rules(Loop, 0, 0, 0, false), Head(-5, false, false, false, false);
    var h1 := Head(0, false, false, false, false);
    DegenerateTravel(r, h, 1);
    assert Travelled(r, h, 1) == h1;
    DegenerateTravel(r, h1, 1);
    DegenerateTravel(r, h, 2);
  }

  // Closed forms, inside an entered window of some length.

  /** How far the playhead is from the bound behind it. */
  function Phase(r: Rules, h: Head): int {
    Span(r, h) - Room(r, h)
  }

  /** The playhead `distance` past the bound behind it, or turned round and
      `distance` past the one ahead. */
  function PastBehind(r: Rules, h: Head, distance: int): Head {
    h.(position := Behind(r, h) + Along(r, h, distance))
  }

  function PastAhead(r: Rules, h: Head, distance: int): Head {
    h.(position := Ahead(r, h) - Along(r, h, distance), reversed := !h.reversed, turned := true)
  }

  /**
   Where `distance` nanoseconds leave a playhead inside its entered window:
   clamped, wrapped, or reflected; landing on a bound it stays on it.
   */
  function Landing(r: Rules, h: Head, distance: nat): Head
    requires Span(r, h) > 0
  {
    var span, x := Span(r, h), Phase(r, h) + distance;
    match r.mode
    case Once => PastBehind(r, h, Min(x, span)).(ended := x >= span)
    case Loop => PastBehind(r, h, (x - 1) % span + 1)
    case Bounce =>
      if h.turned then PastBehind(r, h, Min(x, span)).(ended := x >= span)
      else if x <= span then PastBehind(r, h, x)
      else PastAhead(r, h, Min(x - span, span)).(ended := x >= 2 * span)
    case PingPong =>
      var y := (x - 1) % (2 * span) + 1;
      var landed := if y <= span then PastBehind(r, h, y) else PastAhead(r, h, y - span);
      landed.(turned := h.turned || x > span)
  }

  /** From a bound, less than a span on. */
  lemma LegFromBound(r: Rules, h: Head, n: nat)
    requires r.Valid() && !h.ended && h.entered && h.position == Behind(r, h) && 0 < n <= Span(r, h)
    ensures Nanoseconds(r, h, n) == PastBehind(r, h, n).(ended := n == Span(r, h) && Stops(r, h))
  {
    LegInside(r, h, n);
  }

  /** Up to the bound ahead, and past it by `n`. */
  lemma OverTheBound(r: Rules, h: Head, n: nat)
    requires r.Valid() && !h.ended && h.entered && Inside(r, h) && Span(r, h) > 0 && n > 0 && !Stops(r, h)
    ensures Nanoseconds(r, h, Room(r, h) + n) == Nanoseconds(r, Placed(r, AtAhead(r, h)), n)
  {
    var room := Room(r, h);
    if room > 0 {
      LegInside(r, h, room);
    }
    assert Nanoseconds(r, h, room) == AtAhead(r, h);
    NanosecondsCompose(r, h, room, n);
    PassedBound(r, AtAhead(r, h), n);
  }

  lemma LandingShort(r: Rules, h: Head, distance: nat)
    requires r.Valid() && !h.ended && h.entered && Inside(r, h) && Span(r, h) > 0
    requires 0 < distance <= Room(r, h)
    ensures Nanoseconds(r, h, distance) == Landing(r, h, distance)
  {
    hide Nanoseconds, Nanosecond;
    var span, x := Span(r, h), Phase(r, h) + distance;
    LegInside(r, h, distance);
    RemainderBelow(x - 1, span);
    RemainderBelow(x - 1, 2 * span);
  }

  lemma LandingWrapped(r: Rules, h: Head, distance: nat)
    requires r.Valid() && !h.ended && h.entered && Inside(r, h) && Span(r, h) > 0
    requires distance > Room(r, h) && r.mode == Loop
    ensures Nanoseconds(r, h, distance) == Landing(r, h, distance)
  {
    var span, rest := Span(r, h), distance - Room(r, h);
    OverTheBound(r, h, rest);
    var p := Placed(r, AtAhead(r, h));
    WholePeriods(r, p, rest);
    LegFromBound(r, p, (rest - 1) % span + 1);
    RemainderOfDifference(Phase(r, h) + distance - 1, span);
  }

  /** Between the bounds for ever, from one of them. */
  lemma ReflectedFromBound(r: Rules, p: Head, n: nat)
    requires r.Valid() && !p.ended && p.entered && p.turned && r.mode == PingPong
    requires p.position == Behind(r, p) && Span(r, p) > 0 && n > 0
    ensures var span := Span(r, p);
            var y := (n - 1) % (2 * span) + 1;
            Nanoseconds(r, p, n) == if y <= span then PastBehind(r, p, y) else PastAhead(r, p, y - span)
  {
    var span := Span(r, p);
    WholePeriods(r, p, n);
    var y := (n - 1) % (2 * span) + 1;
    if y <= span {
      LegFromBound(r, p, y);
    } else {
      AcrossTheSpan(r, p, y);
      LegFromBound(r, Placed(r, p.(position := Ahead(r, p))), y - span);
    }
  }

  lemma LandingReflected(r: Rules, h: Head, distance: nat)
    requires r.Valid() && !h.ended && h.entered && Inside(r, h) && Span(r, h) > 0
    requires distance > Room(r, h) && r.mode == PingPong
    ensures Nanoseconds(r, h, distance) == Landing(r, h, distance)
  {
    var rest := distance - Room(r, h);
    var p := Placed(r, AtAhead(r, h));
    OverTheBound(r, h, rest);
    ReflectedFromBound(r, p, rest);
    ShiftedHalf(rest - 1, Span(r, h));
    assert Phase(r, h) + distance - 1 == rest - 1 + Span(r, h);
  }

  /** Half a period further, a remainder is half a period off. */
  lemma ShiftedHalf(a: int, span: int)
    requires a >= 0 && span > 0
    ensures (a + span) % (2 * span) == (if a % (2 * span) < span then a % (2 * span) + span else a % (2 * span) - span)
  {
    var q, t := a / (2 * span), a % (2 * span);
    assert a == 2 * span * q + t;
    if t < span {
      DivisionIs(a + span, 2 * span, q, t + span);
    } else {
      assert a + span == 2 * span * (q + 1) + (t - span);
      DivisionIs(a + span, 2 * span, q + 1, t - span);
    }
  }

  lemma LandingTurned(r: Rules, h: Head, distance: nat)
    requires r.Valid() && !h.ended && h.entered && Inside(r, h) && Span(r, h) > 0
    requires distance > Room(r, h) && r.mode == Bounce && !h.turned
    ensures Nanoseconds(r, h, distance) == Landing(r, h, distance)
  {
    var span, rest := Span(r, h), distance - Room(r, h);
    OverTheBound(r, h, rest);
    var p := Placed(r, AtAhead(r, h));
    LegFromBound(r, p, Min(rest, span));
    if rest > span {
      NanosecondsCompose(r, p, span, rest - span);
      EndedStays(r, Nanoseconds(r, p, span), rest - span);
    }
  }

  lemma LandingStopped(r: Rules, h: Head, distance: nat)
    requires r.Valid() && !h.ended && h.entered && Inside(r, h) && Span(r, h) > 0
    requires distance > Room(r, h) && Stops(r, h)
    ensures Nanoseconds(r, h, distance) == Landing(r, h, distance)
  {
    var room := Room(r, h);
    if room > 0 {
      LegInside(r, h, room);
      NanosecondsCompose(r, h, room, distance - room);
      EndedStays(r, Nanoseconds(r, h, room), distance - room);
    } else {
      StopAtBound(r, h, distance);
    }
  }

  /** In every mode the travel lands where the closed form says. */
  lemma LandsInClosedForm(r: Rules, h: Head, distance: nat)
    requires r.Valid() && !h.ended && h.entered && Inside(r, h) && Span(r, h) > 0
    requires distance > 0
    ensures Travelled(r, h, distance) == Landing(r, h, distance)
  {
    if distance <= Room(r, h) {
      LandingShort(r, h, distance);
    } else if Stops(r, h) {
      LandingStopped(r, h, distance);
    } else {
      match r.mode
      case Loop => LandingWrapped(r, h, distance);
      case PingPong => LandingReflected(r, h, distance);
      case Bounce => LandingTurned(r, h, distance);
    }
  }

  // The hull.

  predicate InHull(r: Rules, start: int, position: int) {
    Min(start, Min(r.lo, 0)) <= position <= Max(start, Max(r.hi, r.length))
  }

  lemma OnwardInHull(r: Rules, h: Head, start: int)
    requires r.Valid() && InHull(r, start, h.position) && Room(r, h) > 0
    ensures InHull(r, start, Onward(r, h).position)
  {
    hide NearEnd, Stops;
  }

  lemma {:induction false} NanosecondInHull(r: Rules, h: Head, start: int)
    requires r.Valid() && InHull(r, start, h.position)
    ensures InHull(r, start, Nanosecond(r, h).position)
    decreases if Enter(r, h).entered then 0 else 1, if Room(r, Enter(r, h)) > 0 then 0 else 1
  {
    hide Onward, Stops;
    var e := Enter(r, h);
    if !e.ended && Room(r, e) > 0 {
      OnwardInHull(r, e, start);
    } else if !e.ended && !Stops(r, e) && Span(r, e) != 0 {
      NanosecondInHull(r, Placed(r, e), start);
    }
  }

  lemma {:induction false} NanosecondsInHull(r: Rules, h: Head, start: int, n: nat)
    requires r.Valid() && InHull(r, start, h.position)
    ensures InHull(r, start, Nanoseconds(r, h, n).position)
    decreases n
  {
    if n > 0 {
      NanosecondInHull(r, h, start);
      NanosecondsInHull(r, Nanosecond(r, h), start, n - 1);
    }
  }

  /** A playhead never leaves the hull of where it starts, its window, 0 and
      its length. */
  lemma TravelStaysInHull(r: Rules, h: Head, distance: nat)
    requires r.Valid()
    ensures InHull(r, h.position, Travelled(r, h, distance).position)
  {
    NanosecondsInHull(r, Inwards(r, h), h.position, distance);
  }

  // The legs of a travel, as a loop takes them one after the other.

  /** Whole periods travel to where they started, once the window is entered. */
  function Left(r: Rules, h: Head, remaining: int): int
    requires Span(r, h) > 0
  {
    if h.entered && r.mode in {Loop, PingPong} then (remaining - 1) % Period(r, h) + 1 else remaining
  }

  /**
   How many legs at most are left to travel: a bound on the loop's turns that
   the distance does not enter.
   */
  function LegsLeft(r: Rules, h: Head, distance: nat): (legs: nat)
    ensures legs <= 5
  {
    var e := Enter(r, h);
    if distance == 0 || h.ended then 0
    else if e.entered then
      if !Inside(r, e) && Room(r, e) > 0 then 4
      else if Stops(r, e) || Span(r, e) == 0 || distance <= Room(r, e) then 1
      else if Inside(r, e) && distance - Room(r, e) <= Span(r, e) then 2
      else 3
    else if Inside(r, e) && Gap(r, e) > 0 then 4
    else 5
  }

  lemma TravelNothing(r: Rules, h: Head, distance: nat)
    requires r.Valid() && (distance == 0 || h.ended)
    ensures Travelled(r, h, distance) == h
  {
    EndedStays(r, Inwards(r, h).(ended := true), distance);
  }

  lemma TravelEntering(r: Rules, h: Head, distance: nat)
    requires r.Valid() && !h.ended && distance > 0
    ensures Travelled(r, h, distance) == Travelled(r, Enter(r, h), distance)
    ensures LegsLeft(r, h, distance) == LegsLeft(r, Enter(r, h), distance)
  {
  }

  lemma LegsToBounds(r: Rules, h: Head, distance: nat, step: nat)
    requires r.Valid() && !h.ended && distance > 0 && Enter(r, h) == h && !Inside(r, h) && Room(r, h) > 0
    requires step == Min(distance, Along(r, h, Behind(r, h) - h.position))
    ensures step > 0 && LegsLeft(r, Moved(r, h, step), distance - step) < LegsLeft(r, h, distance)
  {
    hide Nanosecond;
  }

  lemma TravelToBounds(r: Rules, h: Head, distance: nat, step: nat)
    requires r.Valid() && !h.ended && distance > 0 && Enter(r, h) == h && !Inside(r, h) && Room(r, h) > 0
    requires step == Min(distance, Along(r, h, Behind(r, h) - h.position))
    ensures Travelled(r, h, distance) == Travelled(r, Moved(r, h, step), distance - step)
    ensures step > 0
    ensures LegsLeft(r, Moved(r, h, step), distance - step) < LegsLeft(r, h, distance)
  {
    hide Nanosecond, LegsLeft;
    LegsToBounds(r, h, distance, step);
    LegToBounds(r, Inwards(r, h), step);
    StepIndependence(r, h, step, distance - step);
    assert Travelled(r, h, step) == Moved(r, h, step);
  }

  lemma TravelToWindow(r: Rules, h: Head, distance: nat)
    requires r.Valid() && !h.ended && !h.entered && Enter(r, h) == h && Inside(r, h)
    requires 0 < Gap(r, h) <= distance
    ensures var near := Moved(r, h, Gap(r, h)).(entered := true);
            && Travelled(r, h, distance) == Travelled(r, near, distance - Gap(r, h))
            && LegsLeft(r, near, distance - Gap(r, h)) < LegsLeft(r, h, distance)
  {
    LegToWindow(r, h);
    StepIndependence(r, h, Gap(r, h), distance - Gap(r, h));
  }

  lemma TravelInside(r: Rules, h: Head, distance: nat)
    requires r.Valid() && !h.ended && Enter(r, h) == h && Inside(r, h) && 0 < distance <= Room(r, h)
    requires !h.entered && Gap(r, h) > 0 ==> distance < Gap(r, h)
    ensures Travelled(r, h, distance) == Moved(r, h, distance).(ended := distance == Room(r, h) && Stops(r, h))
  {
    LegInside(r, h, distance);
  }

  /** Inside the bounds up to the one ahead, or at it heading away. */
  lemma TravelToAhead(r: Rules, h: Head, distance: nat)
    requires r.Valid() && !h.ended && Enter(r, h) == h && (Inside(r, h) || HeadsAway(r, h))
    requires !h.entered ==> Gap(r, h) <= 0
    requires distance > Max(Room(r, h), 0)
    ensures Stops(r, h) ==> Travelled(r, h, distance) == AtAhead(r, h).(ended := true)
    ensures !Stops(r, h) && Span(r, h) == 0 ==> Travelled(r, h, distance) == AtAhead(r, h)
    ensures !Stops(r, h) && Span(r, h) > 0 ==>
              var placed := Placed(r, AtAhead(r, h));
              var left := Left(r, h, distance - Max(Room(r, h), 0));
              && left > 0
              && Travelled(r, h, distance) == Travelled(r, placed, left)
              && LegsLeft(r, placed, left) < LegsLeft(r, h, distance)
  {
    var room, at := Room(r, h), AtAhead(r, h);
    if r.Degenerate() {
      DegenerateTravel(r, h, distance);
    } else {
      if room > 0 {
        LegInside(r, h, room);
        NanosecondsCompose(r, h, room, distance - room);
        if Stops(r, h) {
          EndedStays(r, at.(ended := true), distance - room);
        }
      } else if Stops(r, h) {
        StopAtBound(r, h, distance);
      } else if Span(r, h) == 0 {
        HeldAtBound(r, h, distance);
      }
      if !Stops(r, h) && Span(r, h) > 0 {
        TravelPastAhead(r, h, distance);
      }
    }
  }

  lemma TravelPastAhead(r: Rules, h: Head, distance: nat)
    requires r.Valid() && !h.ended && Enter(r, h) == h && (Inside(r, h) || HeadsAway(r, h)) && !r.Degenerate()
    requires !h.entered ==> Gap(r, h) <= 0
    requires distance > Max(Room(r, h), 0) && !Stops(r, h) && Span(r, h) > 0
    requires Room(r, h) > 0 ==>
               Nanoseconds(r, h, distance) == Nanoseconds(r, AtAhead(r, h), distance - Room(r, h))
    ensures var placed := Placed(r, AtAhead(r, h));
            var left := Left(r, h, distance - Max(Room(r, h), 0));
            && left > 0
            && Travelled(r, h, distance) == Travelled(r, placed, left)
            && LegsLeft(r, placed, left) < LegsLeft(r, h, distance)
  {
    hide LegsLeft, Nanosecond, Nanoseconds;
    var rest := distance - Max(Room(r, h), 0);
    var at := AtAhead(r, h);
    var placed := Placed(r, at);
    assert Placed(r, h) == placed;
    PassedBound(r, if Room(r, h) > 0 then at else h, rest);
    if h.entered && r.mode in {Loop, PingPong} {
      WholePeriods(r, placed, rest);
    }
    PastAheadLegs(r, h, distance);
  }

  lemma PastAheadLegs(r: Rules, h: Head, distance: nat)
    requires r.Valid() && !h.ended && Enter(r, h) == h && (Inside(r, h) || HeadsAway(r, h)) && !r.Degenerate()
    requires !h.entered ==> Gap(r, h) <= 0
    requires distance > Max(Room(r, h), 0) && !Stops(r, h) && Span(r, h) > 0
    ensures var left := Left(r, h, distance - Max(Room(r, h), 0));
            left > 0 && LegsLeft(r, Placed(r, AtAhead(r, h)), left) < LegsLeft(r, h, distance)
  {
    var rest := distance - Max(Room(r, h), 0);
    var placed := Placed(r, AtAhead(r, h));
    var left := Left(r, h, rest);
    if h.entered {
      assert Room(r, placed) == Span(r, h) && Inside(r, placed);
      if r.mode in {Loop, PingPong} {
        assert left <= Period(r, h);
      }
      if rest <= Span(r, h) {
        RemainderBelow(rest - 1, Period(r, h));
      }
    } else {
      assert LegsLeft(r, h, distance) == 5;
    }
  }

  /** A leg from `h` with `distance` to go leaves `next` with `left` to go. */
  predicate Leg(r: Rules, h: Head, distance: nat, next: Head, left: nat)
    requires r.Valid()
  {
    && Travelled(r, next, left) == Travelled(r, h, distance)
    && LegsLeft(r, next, left) < LegsLeft(r, h, distance)
    && InHull(r, h.position, next.position)
  }

  // A playhead put where another is.

  /** Alike but for turns that make no difference under the mode. */
  predicate TurnedAlike(r: Rules, h: Head, g: Head) {
    h.(turned := false) == g.(turned := false) && (r.mode == Bounce ==> h.turned == g.turned)
  }

  lemma BoundsAlike(r: Rules, h: Head, g: Head)
    requires TurnedAlike(r, h, g)
    ensures Low(r, h) == Low(r, g) && High(r, h) == High(r, g) && Forward(r, h) == Forward(r, g)
    ensures Stops(r, h) == Stops(r, g) && TurnedAlike(r, Enter(r, h), Enter(r, g))
  {
  }

  lemma RoomAlike(r: Rules, h: Head, g: Head)
    requires TurnedAlike(r, h, g)
    ensures Room(r, h) == Room(r, g) && Span(r, h) == Span(r, g) && Inside(r, h) == Inside(r, g)
    ensures Ahead(r, h) == Ahead(r, g) && Behind(r, h) == Behind(r, g) && NearEnd(r, h) == NearEnd(r, g)
  {
    hide Low, High;
    BoundsAlike(r, h, g);
  }

  lemma OnwardAlike(r: Rules, h: Head, g: Head)
    requires TurnedAlike(r, h, g)
    ensures TurnedAlike(r, AtAhead(r, h), AtAhead(r, g)) && TurnedAlike(r, Onward(r, h), Onward(r, g))
  {
    hide Ahead, Inside, NearEnd;
    RoomAlike(r, h, g);
    BoundsAlike(r, h, g);
  }

  lemma PlacedAlike(r: Rules, h: Head, g: Head)
    requires TurnedAlike(r, h, g)
    ensures TurnedAlike(r, Placed(r, h), Placed(r, g))
  {
  }

  /** How many placements a nanosecond may still make, and more. */
  function Stage(r: Rules, h: Head): nat {
    var e := Enter(r, h);
    (if e.entered then 0 else 2) + if Room(r, e) > 0 then 0 else 1
  }

  lemma PlacedIsNearer(r: Rules, h: Head)
    requires r.Valid()
    requires var e := Enter(r, h); !e.ended && Room(r, e) <= 0 && Span(r, e) != 0 && !Stops(r, e)
    ensures Stage(r, Placed(r, Enter(r, h))) < Stage(r, h)
  {
  }

  lemma {:induction false} NanosecondAlike(r: Rules, h: Head, g: Head)
    requires r.Valid() && TurnedAlike(r, h, g)
    ensures TurnedAlike(r, Nanosecond(r, h), Nanosecond(r, g))
    decreases Stage(r, h)
  {
    hide Onward, AtAhead, Placed, Room, Span, Stops, Enter, Stage;
    var e, o := Enter(r, h), Enter(r, g);
    BoundsAlike(r, h, g);
    BoundsAlike(r, e, o);
    RoomAlike(r, e, o);
    OnwardAlike(r, e, o);
    if !e.ended && Room(r, e) <= 0 && !Stops(r, e) && Span(r, e) != 0 {
      PlacedAlike(r, e, o);
      PlacedIsNearer(r, h);
      NanosecondAlike(r, Placed(r, e), Placed(r, o));
    }
  }

  lemma {:induction false} NanosecondsAlike(r: Rules, h: Head, g: Head, n: nat)
    requires r.Valid() && TurnedAlike(r, h, g)
    ensures TurnedAlike(r, Nanoseconds(r, h, n), Nanoseconds(r, g, n))
    decreases n
  {
    if n > 0 {
      NanosecondAlike(r, h, g);
      NanosecondsAlike(r, Nanosecond(r, h), Nanosecond(r, g), n - 1);
    }
  }

  /** The late playhead is where the lead is, heads as it does and ends when it
      does. */
  predicate Alongside(r: Rules, lead: Head, distance: nat)
    requires r.Valid()
  {
    var late := Head(lead.position, lead.reversed, lead.reversed, false, false);
    var mine, its := Travelled(r, late, distance), Travelled(r, lead, distance);
    mine.position == its.position && mine.reversed == its.reversed && mine.ended == its.ended
  }

  /** A playhead put where another stands, heading as it does and counting as
      turned when it is reversed, travels as the other does from there. */
  lemma PlaysAlongside(r: Rules, lead: Head, distance: nat)
    requires r.Valid() && !lead.ended && (r.mode == Bounce ==> lead.turned == lead.reversed)
    requires lead.entered ==> r.lo <= lead.position <= r.hi
    ensures Alongside(r, lead, distance)
  {
    var late := Head(lead.position, lead.reversed, lead.reversed, false, false);
    if r.Degenerate() {
      NanosecondsAlike(r, Inwards(r, late), Inwards(r, lead), distance);
    } else if distance > 0 {
      assert Nanosecond(r, late) == Nanosecond(r, Enter(r, late));
      NanosecondAlike(r, Enter(r, late), Enter(r, lead));
      NanosecondsAlike(r, Nanosecond(r, late), Nanosecond(r, lead), distance - 1);
    }
  }

  /** From inside a window of some length they travel alike, whatever the
      distance, exactly when a bounce turned the lead but on the way it heads. */
  lemma AlongsideTells(r: Rules, lead: Head)
    requires r.Valid() && !lead.ended && r.lo <= lead.position <= r.hi && r.lo < r.hi
    ensures (forall distance: nat :: Alongside(r, lead, distance)) <==>
            (r.mode == Bounce ==> lead.turned == lead.reversed)
  {
    if r.mode == Bounce && lead.turned != lead.reversed {
      OneStopsFirst(r, lead);
    } else {
      forall distance: nat ensures Alongside(r, lead, distance) {
        PlaysAlongside(r, lead, distance);
      }
    }
  }

  lemma EnteringFirst(r: Rules, h: Head, n: nat)
    requires r.Valid() && !h.ended && n > 0
    ensures Nanoseconds(r, h, n) == Nanoseconds(r, Enter(r, h), n)
  {
    assert Nanosecond(r, h) == Nanosecond(r, Enter(r, h));
  }

  lemma OneMore(r: Rules, h: Head)
    requires r.Valid()
    ensures Nanoseconds(r, h, 1) == Nanosecond(r, h)
  {
  }

  lemma OneStopsFirst(r: Rules, lead: Head)
    requires r.Valid() && !lead.ended && r.lo <= lead.position <= r.hi && r.lo < r.hi
    requires r.mode == Bounce && lead.turned != lead.reversed
    ensures !Alongside(r, lead, Max(1, Room(r, Enter(r, lead))))
  {
    var late := Head(lead.position, lead.reversed, lead.reversed, false, false);
    var a, z := Enter(r, late), Enter(r, lead);
    var room := Room(r, z);
    EnteringFirst(r, late, Max(1, room));
    EnteringFirst(r, lead, Max(1, room));
    if room > 0 {
      LegInside(r, a, room);
      LegInside(r, z, room);
    } else {
      OneMore(r, a);
      OneMore(r, z);
    }
  }

  /** A lead that entered its window and stands outside it, as when its length
      shrank, wraps into the window, and the late one into the whole length. */
  lemma LeadsOutsideDiffer()
    ensures var r, lead := Rules(Loop, 1, 2, 1, true), Head(5, false, false, true, false);
            r.Valid() && !Alongside(r, lead, 1)
  {
    var r, lead := Rules(Loop, 1, 2, 1, true), Head(5, false, false, true, false);
    var late := Head(5, false, false, false, false);
    OneMore(r, lead);
    OneMore(r, late);
    assert Nanosecond(r, lead) == Nanosecond(r, Placed(r, lead));
    assert Nanosecond(r, late) == Nanosecond(r, Placed(r, late));
  }
}
