/**
 The output table of an animation engine: a position for each key each player
 writes, and the routes from the tracks its instances play to their positions.

 A clip becomes an animation whose routes are its tracks that play; an
 instance of it, on a player, has each of those routed to a place in the
 player's part of the table, which every change of the players, the instances
 or the clips makes anew.

 `Engine` keeps the table aligned with them through each command, and
 `Engine.Outputs` says what contributes to each position.
 */
module Outputs {
  import opened Integers

  const TWO_TO_THE_32: nat := 0x1_0000_0000

  /** A track, and whether it has no keypoint. */
  datatype Track = Track(id: string, target: string, empty: bool)

  /** A clip loaded, and which of its tracks play. */
  datatype Animation = Animation(id: nat, tracks: seq<Track>, plays: seq<bool>)

  datatype Timing = Timing(offset: int, rate: real)

  datatype Instance = Instance(id: nat, anim: nat, weight: real, timing: Timing)

  datatype Slot = Slot(id: nat, name: string, instances: seq<Instance>, routes: seq<seq<nat>>)

  // The tracks that play.

  /** No track before it has its target. */
  predicate IsFirst(tracks: seq<Track>, i: nat) {
    i < |tracks| && forall j :: 0 <= j < i ==> tracks[j].target != tracks[i].target
  }

  predicate Claimed(a: Animation) {
    |a.plays| == |a.tracks| && forall i :: 0 <= i < |a.tracks| ==> (a.plays[i] <==> IsFirst(a.tracks, i))
  }

  method NewAnimation(id: nat, tracks: seq<Track>) returns (a: Animation)
    ensures Claimed(a) && a.id == id && a.tracks == tracks
  {
    var claimed: set<string>, plays: seq<bool> := {}, [];
    for i := 0 to |tracks|
      invariant |plays| == i && claimed == set j | 0 <= j < i :: tracks[j].target
      invariant forall j :: 0 <= j < i ==> (plays[j] <==> IsFirst(tracks, j))
    {
      plays := plays + [tracks[i].target !in claimed];
      claimed := claimed + {tracks[i].target};
    }
    a := Animation(id, tracks, plays);
  }

  /** Of the first `n` tracks, those that play and have keypoints. */
  function PlayedOf(a: Animation, n: nat): seq<Track>
    requires n <= |a.tracks| == |a.plays|
  {
    if n == 0 then []
    else PlayedOf(a, n - 1) + if a.plays[n - 1] && !a.tracks[n - 1].empty then [a.tracks[n - 1]] else []
  }

  function Played(a: Animation): seq<Track> {
    if |a.plays| == |a.tracks| then PlayedOf(a, |a.tracks|) else []
  }

  /** A clip plays each target at most once. */
  lemma {:induction false} PlayedOnce(a: Animation, n: nat)
    requires Claimed(a) && n <= |a.tracks|
    ensures forall t :: t in PlayedOf(a, n) ==> exists i :: 0 <= i < n && a.tracks[i] == t && IsFirst(a.tracks, i)
    ensures forall i, j :: 0 <= i < j < |PlayedOf(a, n)| ==> PlayedOf(a, n)[i].target != PlayedOf(a, n)[j].target
    decreases n
  {
    if n > 0 {
      PlayedOnce(a, n - 1);
      var before := PlayedOf(a, n - 1);
      forall i | 0 <= i < |before| && IsFirst(a.tracks, n - 1) ensures before[i].target != a.tracks[n - 1].target {
        assert before[i] in before;
      }
    }
  }

  function Find(animations: seq<Animation>, id: nat): Option<Animation> {
    if animations == [] then None
    else if animations[0].id == id then Some(animations[0])
    else Find(animations[1..], id)
  }

  // What a player writes.

  function WrittenBy(animations: seq<Animation>, i: Instance): seq<Track> {
    var a := Find(animations, i.anim);
    if a.Some? then Played(a.value) else []
  }

  function Written(animations: seq<Animation>, instances: seq<Instance>): seq<Track> {
    if instances == [] then []
    else Written(animations, instances[..|instances| - 1]) + WrittenBy(animations, instances[|instances| - 1])
  }

  predicate Holds(tracks: seq<Track>, target: string) {
    exists i :: 0 <= i < |tracks| && tracks[i].target == target
  }

  /** The first track on each target, in order. */
  function Firsts(tracks: seq<Track>): seq<Track> {
    if tracks == [] then []
    else
      var before, last := Firsts(tracks[..|tracks| - 1]), tracks[|tracks| - 1];
      if Holds(before, last.target) then before else before + [last]
  }

  lemma FirstsMore(tracks: seq<Track>, t: Track)
    ensures Firsts(tracks + [t]) == if Holds(Firsts(tracks), t.target) then Firsts(tracks) else Firsts(tracks) + [t]
  {
    assert (tracks + [t])[..|tracks|] == tracks;
  }

  lemma HoldsMore(tracks: seq<Track>, t: Track, target: string)
    ensures Holds(tracks + [t], target) <==> Holds(tracks, target) || t.target == target
  {
    if Holds(tracks, target) {
      var i :| 0 <= i < |tracks| && tracks[i].target == target;
      assert (tracks + [t])[i].target == target;
    }
    assert (tracks + [t])[|tracks|] == t;
  }

  /** What is written has a place. */
  lemma {:induction false} FirstsHold(tracks: seq<Track>, target: string)
    ensures Holds(Firsts(tracks), target) <==> Holds(tracks, target)
    decreases |tracks|
  {
    if tracks != [] {
      var init, last := tracks[..|tracks| - 1], tracks[|tracks| - 1];
      FirstsHold(init, target);
      FirstsHold(init, last.target);
      assert tracks == init + [last];
      HoldsMore(init, last, target);
      HoldsMore(Firsts(init), last, target);
    }
  }

  /** Each target has one place. */
  lemma {:induction false} FirstsDiffer(tracks: seq<Track>)
    ensures forall i, j :: 0 <= i < j < |Firsts(tracks)| ==> Firsts(tracks)[i].target != Firsts(tracks)[j].target
    decreases |tracks|
  {
    if tracks != [] {
      FirstsDiffer(tracks[..|tracks| - 1]);
    }
  }

  /** A track that no other before it writes the target of. */
  ghost predicate IsFirstWriter(tracks: seq<Track>, t: Track) {
    exists k: nat :: IsFirst(tracks, k) && tracks[k] == t
  }

  lemma FirstWriterStays(tracks: seq<Track>, last: Track, t: Track)
    requires IsFirstWriter(tracks, t)
    ensures IsFirstWriter(tracks + [last], t)
  {
    var k: nat :| IsFirst(tracks, k) && tracks[k] == t;
    assert IsFirst(tracks + [last], k) && (tracks + [last])[k] == t;
  }

  /** Each place is of the track that first writes it. */
  lemma {:induction false} FirstsWrite(tracks: seq<Track>, i: nat)
    requires i < |Firsts(tracks)|
    ensures IsFirstWriter(tracks, Firsts(tracks)[i])
    decreases |tracks|
  {
    var init, last := tracks[..|tracks| - 1], tracks[|tracks| - 1];
    assert tracks == init + [last];
    if i < |Firsts(init)| {
      FirstsWrite(init, i);
      FirstWriterStays(init, last, Firsts(init)[i]);
    } else {
      FirstsHold(init, last.target);
      assert IsFirst(tracks, |init|);
    }
  }

  /** The table: per player, each key in the order its instances first write it. */
  function Table(animations: seq<Animation>, players: seq<Slot>): seq<Track> {
    if players == [] then []
    else Table(animations, players[..|players| - 1])
         + Firsts(Written(animations, players[|players| - 1].instances))
  }

  function Targets(table: seq<Track>): (keys: seq<string>)
    ensures |keys| == |table| && forall i :: 0 <= i < |table| ==> keys[i] == table[i].target
  {
    seq(|table|, i requires 0 <= i < |table| => table[i].target)
  }

  function Ids(table: seq<Track>): (ids: seq<string>)
    ensures |ids| == |table| && forall i :: 0 <= i < |table| ==> ids[i] == table[i].id
  {
    seq(|table|, i requires 0 <= i < |table| => table[i].id)
  }

  /** Each played track is routed to its target's position, in the part. */
  predicate Routed(played: seq<Track>, routes: seq<nat>, keys: seq<string>, first: nat, end: nat) {
    && |routes| == |played| && end <= |keys|
    && forall k :: 0 <= k < |routes| ==> first <= routes[k] < end && keys[routes[k]] == played[k].target
  }

  /** Where a player's part of the table starts. */
  function PartOf(animations: seq<Animation>, players: seq<Slot>, p: nat): nat
    requires p <= |players|
  {
    |Table(animations, players[..p])|
  }

  /** Each player's routes lead into its own part of the table. */
  predicate Aligned(animations: seq<Animation>, players: seq<Slot>, keys: seq<string>) {
    forall p :: 0 <= p < |players| ==>
      Routing(animations, players[p].instances, players[p].routes, keys, PartOf(animations, players, p),
              PartOf(animations, players, p + 1))
  }

  // Rebuilding the table.

  /** The position of a target in a player's part, found or made. */
  method Place(table: seq<Track>, first: nat, ghost written: seq<Track>, t: Track) returns (longer: seq<Track>, at: nat)
    requires first <= |table| && table[first..] == Firsts(written)
    ensures table <= longer && longer[first..] == Firsts(written + [t])
    ensures first <= at < |longer| && longer[at].target == t.target
  {
    FirstsMore(written, t);
    at := first;
    while at < |table| && table[at].target != t.target
      invariant first <= at <= |table|
      invariant forall i :: 0 <= i < at - first ==> table[first..][i].target != t.target
    {
      at := at + 1;
    }
    if at < |table| {
      assert table[first..][at - first] == table[at];
      longer := table;
    } else {
      longer := table + [t];
      assert longer[first..] == table[first..] + [t];
    }
  }

  /** Routes the tracks an instance plays, and gives the targets it first
      writes their positions. */
  method RouteInstance(table: seq<Track>, first: nat, ghost written: seq<Track>, played: seq<Track>)
    returns (longer: seq<Track>, routes: seq<nat>)
    requires first <= |table| && table[first..] == Firsts(written)
    ensures table <= longer && longer[first..] == Firsts(written + played)
    ensures Routed(played, routes, Targets(longer), first, |longer|)
  {
    hide Targets, Routed, Firsts;
    longer, routes := table, [];
    assert written + played[..0] == written;
    NoneRouted(longer, first);
    assert played[..0] == [];
    for k := 0 to |played|
      invariant table <= longer && longer[first..] == Firsts(written + played[..k])
      invariant Routed(played[..k], routes, Targets(longer), first, |longer|)
    {
      var next, at := Place(longer, first, written + played[..k], played[k]);
      assert written + played[..k] + [played[k]] == written + played[..k + 1];
      OneMoreRouted(played[..k], routes, longer, first, played[k], next, at);
      assert played[..k + 1] == played[..k] + [played[k]];
      longer, routes := next, routes + [at];
    }
    assert played[..|played|] == played;
  }

  lemma NoneRouted(table: seq<Track>, first: nat)
    ensures Routed([], [], Targets(table), first, |table|)
  {
  }

  lemma OneMoreRouted(played: seq<Track>, routes: seq<nat>, table: seq<Track>, first: nat, t: Track, longer: seq<Track>,
                      at: nat)
    requires Routed(played, routes, Targets(table), first, |table|) && table <= longer
    requires first <= at < |longer| && longer[at].target == t.target
    ensures Routed(played + [t], routes + [at], Targets(longer), first, |longer|)
  {
    RoutedLonger(played, routes, table, first, |table|, longer);
  }

  /** Routes into a part lead to the same keys of a longer table. */
  lemma RoutedLonger(played: seq<Track>, routes: seq<nat>, table: seq<Track>, first: nat, end: nat, longer: seq<Track>)
    requires Routed(played, routes, Targets(table), first, end) && table <= longer
    ensures Routed(played, routes, Targets(longer), first, end)
  {
    forall k | 0 <= k < |routes| ensures Targets(longer)[routes[k]] == played[k].target {
      assert longer[routes[k]] == table[routes[k]];
    }
  }

  /** As many routes as instances, each leading into the part. */
  predicate Routing(animations: seq<Animation>, instances: seq<Instance>, routes: seq<seq<nat>>, keys: seq<string>,
                    first: nat, end: nat)
  {
    && |routes| == |instances|
    && forall i :: 0 <= i < |instances| ==> Routed(WrittenBy(animations, instances[i]), routes[i], keys, first, end)
  }

  lemma OneMoreRouting(animations: seq<Animation>, instances: seq<Instance>, routes: seq<seq<nat>>, table: seq<Track>,
                       first: nat, i: Instance, more: seq<nat>, longer: seq<Track>)
    requires Routing(animations, instances, routes, Targets(table), first, |table|) && table <= longer
    requires Routed(WrittenBy(animations, i), more, Targets(longer), first, |longer|)
    ensures Routing(animations, instances + [i], routes + [more], Targets(longer), first, |longer|)
  {
    forall k | 0 <= k < |instances|
      ensures Routed(WrittenBy(animations, instances[k]), routes[k], Targets(longer), first, |longer|)
    {
      RoutedLonger(WrittenBy(animations, instances[k]), routes[k], table, first, |table|, longer);
    }
  }

  /** Routes a player's instances, its part of the table following `table`. */
  method RouteSlot(animations: seq<Animation>, table: seq<Track>, slot: Slot) returns (longer: seq<Track>, routed: Slot)
    ensures routed == slot.(routes := routed.routes)
    ensures longer == table + Firsts(Written(animations, slot.instances))
    ensures Routing(animations, slot.instances, routed.routes, Targets(longer), |table|, |longer|)
  {
    hide Routing, Targets, Routed;
    longer := table;
    var routes: seq<seq<nat>> := [];
    NoRouting(animations, table);
    assert slot.instances[..0] == [];
    for i := 0 to |slot.instances|
      invariant table <= longer && longer[|table|..] == Firsts(Written(animations, slot.instances[..i]))
      invariant Routing(animations, slot.instances[..i], routes, Targets(longer), |table|, |longer|)
    {
      ghost var written, before := Written(animations, slot.instances[..i]), longer;
      var more;
      longer, more := RouteInstance(longer, |table|, written, WrittenBy(animations, slot.instances[i]));
      assert slot.instances[..i + 1] == slot.instances[..i] + [slot.instances[i]];
      assert slot.instances[..i + 1][..i] == slot.instances[..i];
      OneMoreRouting(animations, slot.instances[..i], routes, before, |table|, slot.instances[i], more, longer);
      routes := routes + [more];
    }
    assert slot.instances[..|slot.instances|] == slot.instances;
    routed := slot.(routes := routes);
  }

  lemma NoRouting(animations: seq<Animation>, table: seq<Track>)
    ensures Routing(animations, [], [], Targets(table), |table|, |table|)
  {
  }

  // The engine.

  /** The players but for their routes. */
  function Bare(players: seq<Slot>): (bare: seq<Slot>)
    ensures |bare| == |players| && forall p :: 0 <= p < |players| ==> bare[p] == players[p].(routes := [])
  {
    seq(|players|, p requires 0 <= p < |players| => players[p].(routes := []))
  }

  /** The table of the first players starts the whole. */
  lemma {:induction false} TableGrows(animations: seq<Animation>, players: seq<Slot>, p: nat)
    requires p <= |players|
    ensures Table(animations, players[..p]) <= Table(animations, players)
    decreases |players|
  {
    if p == |players| {
      assert players[..p] == players;
    } else {
      var init := players[..|players| - 1];
      assert init[..p] == players[..p];
      TableGrows(animations, init, p);
    }
  }

  lemma OneMoreAligned(animations: seq<Animation>, before: seq<Slot>, table: seq<Track>, slot: Slot, longer: seq<Track>)
    requires Aligned(animations, before, Targets(table)) && table == Table(animations, before)
    requires longer == table + Firsts(Written(animations, slot.instances))
    requires Routing(animations, slot.instances, slot.routes, Targets(longer), |table|, |longer|)
    ensures Aligned(animations, before + [slot], Targets(longer)) && longer == Table(animations, before + [slot])
  {
    hide Routing, Targets;
    var players := before + [slot];
    assert players[..|before|] == before;
    forall p | 0 <= p < |players|
      ensures Routing(animations, players[p].instances, players[p].routes, Targets(longer),
                      PartOf(animations, players, p), PartOf(animations, players, p + 1))
    {
      if p < |before| {
        assert players[..p] == before[..p] && players[..p + 1] == before[..p + 1];
        RoutingLonger(animations, before[p], table, PartOf(animations, before, p), PartOf(animations, before, p + 1),
                      longer);
      } else {
        assert players[..p + 1] == players;
      }
    }
  }

  lemma RoutingLonger(animations: seq<Animation>, slot: Slot, table: seq<Track>, first: nat, end: nat,
                      longer: seq<Track>)
    requires Routing(animations, slot.instances, slot.routes, Targets(table), first, end) && table <= longer
    ensures Routing(animations, slot.instances, slot.routes, Targets(longer), first, end)
  {
    forall i | 0 <= i < |slot.instances|
      ensures Routed(WrittenBy(animations, slot.instances[i]), slot.routes[i], Targets(longer), first, end)
    {
      RoutedLonger(WrittenBy(animations, slot.instances[i]), slot.routes[i], table, first, end, longer);
    }
  }

  /** Every clip claims its targets, and every instance's clip is loaded. */
  predicate Loaded(animations: seq<Animation>, players: seq<Slot>) {
    && (forall a :: a in animations ==> Claimed(a))
    && forall p, i :: 0 <= p < |players| && 0 <= i < |players[p].instances| ==>
         Find(animations, players[p].instances[i].anim).Some?
  }

  class Engine {
    var nextAnim: nat
    var nextPlayer: nat
    var nextInstance: nat
    var animations: seq<Animation>
    var players: seq<Slot>
    /** The key of each output position, and the id of the track that first writes it. */
    var keys: seq<string>
    var tracks: seq<string>
    var revision: nat

    ghost predicate Valid()
      reads this
    {
      && Loaded(animations, players) && revision < TWO_TO_THE_32
      && keys == Targets(Table(animations, players)) && tracks == Ids(Table(animations, players))
      && Aligned(animations, players, keys)
    }

    constructor ()
      ensures Valid() && animations == [] && players == []
    {
      nextAnim, nextPlayer, nextInstance, revision := 0, 0, 0, 0;
      animations, players, keys, tracks := [], [], [], [];
    }

    /** Rebuilds the table and the routes, under a new revision. */
    method Restructure()
      requires Loaded(animations, players) && revision < TWO_TO_THE_32
      modifies this`players, this`keys, this`tracks, this`revision
      ensures Valid() && Bare(players) == Bare(old(players))
      ensures revision == (old(revision) + 1) % TWO_TO_THE_32
    {
      hide Targets, Ids, Routing, Aligned, Loaded, Bare, Table;
      var table: seq<Track>, routed: seq<Slot> := [], [];
      NoneAligned(animations);
      for p := 0 to |players|
        invariant players == old(players) && revision == old(revision) && |routed| == p
        invariant forall q :: 0 <= q < p ==> routed[q] == players[q].(routes := routed[q].routes)
        invariant table == Table(animations, routed) && Aligned(animations, routed, Targets(table))
      {
        var longer, slot := RouteSlot(animations, table, players[p]);
        OneMoreAligned(animations, routed, table, slot, longer);
        table, routed := longer, routed + [slot];
      }
      OnlyRoutes(players, routed);
      LoadedBare(animations, players, routed);
      players, keys, tracks, revision := routed, Targets(table), Ids(table), (revision + 1) % TWO_TO_THE_32;
    }

    /** Loads a clip; no player plays it yet, and the table stays. */
    method Load(clip: seq<Track>) returns (id: nat)
      requires Valid()
      modifies this`animations, this`nextAnim
      ensures Valid() && id == old(nextAnim) && nextAnim == id + 1
      ensures exists a :: Claimed(a) && a.id == id && a.tracks == clip && animations == old(animations) + [a]
    {
      id := nextAnim;
      nextAnim := nextAnim + 1;
      var a := NewAnimation(id, clip);
      LoadedMore(animations, players, a);
      AlignedSame(animations, animations + [a], players, keys);
      animations := animations + [a];
    }

    /** Replaces the first clip loaded under the id; its instances stay. */
    method Reload(anim: nat, clip: seq<Track>) returns (ok: bool)
      requires Valid()
      modifies this`animations, this`players, this`keys, this`tracks, this`revision
      ensures Valid() && Bare(players) == Bare(old(players)) && ok == Find(old(animations), anim).Some?
      ensures !ok ==> animations == old(animations) && players == old(players) && revision == old(revision)
      ensures ok ==> exists a :: Claimed(a) && a.id == anim && a.tracks == clip
                                 && animations == Replaced(old(animations), a)
      ensures ok ==> revision == (old(revision) + 1) % TWO_TO_THE_32
    {
      if Find(animations, anim).None? {
        return false;
      }
      var a := NewAnimation(anim, clip);
      LoadedReplaced(animations, players, a);
      animations := Replaced(animations, a);
      Restructure();
      ok := true;
    }

    /** Unloads a clip, and removes every instance of it. */
    method Unload(anim: nat) returns (ok: bool)
      requires Valid()
      modifies this`animations, this`players, this`keys, this`tracks, this`revision
      ensures Valid() && ok == Find(old(animations), anim).Some?
      ensures !ok ==> animations == old(animations) && players == old(players) && revision == old(revision)
      ensures ok ==> animations == Without(old(animations), anim) && Bare(players) == Bare(Emptied(old(players), anim))
      ensures ok ==> revision == (old(revision) + 1) % TWO_TO_THE_32
    {
      WithoutTells(animations, anim);
      if |Without(animations, anim)| == |animations| {
        return false;
      }
      LoadedWithout(animations, players, anim);
      animations, players := Without(animations, anim), Emptied(players, anim);
      Restructure();
      ok := true;
    }

    method CreatePlayer(name: string) returns (id: nat)
      requires Valid()
      modifies this`players, this`nextPlayer, this`keys, this`tracks, this`revision
      ensures Valid() && id == old(nextPlayer) && nextPlayer == id + 1
      ensures Bare(players) == Bare(old(players) + [Slot(id, name, [], [])])
      ensures revision == (old(revision) + 1) % TWO_TO_THE_32
    {
      id := nextPlayer;
      nextPlayer := nextPlayer + 1;
      players := players + [Slot(id, name, [], [])];
      Restructure();
    }

    /** Removes the players of that id, and their instances. */
    method RemovePlayer(player: nat) returns (removed: bool)
      requires Valid()
      modifies this`players, this`keys, this`tracks, this`revision
      ensures Valid() && Bare(players) == Bare(Others(old(players), player))
      ensures removed <==> HasPlayer(old(players), player)
      ensures revision == if removed then (old(revision) + 1) % TWO_TO_THE_32 else old(revision)
    {
      OthersTell(players, player);
      removed := |Others(players, player)| != |players|;
      LoadedOthers(animations, players, player);
      players := Others(players, player);
      if removed {
        Restructure();
      }
    }

    /** Puts an instance of a loaded clip on the first player of that id. */
    method AddInstance(player: nat, anim: nat, weight: real, timing: Timing) returns (id: Option<nat>)
      requires Valid()
      modifies this`players, this`nextInstance, this`keys, this`tracks, this`revision
      ensures Valid()
      ensures id.Some? <==> Find(animations, anim).Some? && weight >= 0.0 && timing.rate > 0.0
                            && SlotOf(old(players), player) < |old(players)|
      ensures id.None? ==> players == old(players) && revision == old(revision) && nextInstance == old(nextInstance)
      ensures id.Some? ==> id.value == old(nextInstance) && nextInstance == id.value + 1
                           && revision == (old(revision) + 1) % TWO_TO_THE_32
      ensures id.Some? ==>
                var at, more := SlotOf(old(players), player), Instance(id.value, anim, weight, timing);
                && Bare(players) == Bare(old(players)[at := WithInstance(old(players)[at], more)])
                && players[at].instances == old(players)[at].instances + [more]
    {
      if Find(animations, anim).None? || weight < 0.0 || timing.rate <= 0.0 {
        return None;
      }
      var at := SlotOf(players, player);
      if at == |players| {
        return None;
      }
      id := Some(nextInstance);
      nextInstance := nextInstance + 1;
      players := players[at := WithInstance(players[at], Instance(id.value, anim, weight, timing))];
      Restructure();
    }

    /** Removes the instances of that id from the first player of that id. */
    method RemoveInstance(player: nat, instance: nat) returns (removed: bool)
      requires Valid()
      modifies this`players, this`keys, this`tracks, this`revision
      ensures Valid()
      ensures var at := SlotOf(old(players), player);
              if at == |old(players)| then !removed && players == old(players)
              else Bare(players) == Bare(old(players)[at := WithoutInstance(old(players)[at], instance)])
                   && (removed <==> HasInstance(old(players)[at].instances, instance))
      ensures revision == if removed then (old(revision) + 1) % TWO_TO_THE_32 else old(revision)
    {
      var at := SlotOf(players, player);
      if at == |players| {
        return false;
      }
      OtherInstancesTell(players[at].instances, instance);
      var fewer := WithoutInstance(players[at], instance);
      removed := |fewer.instances| != |players[at].instances|;
      if removed {
        LoadedFewer(animations, players, at, fewer);
        players := players[at := fewer];
        Restructure();
      }
    }

    /**
     Adds each instance's samples where its routes lead. No route leads out of
     range, and each position takes exactly the samples of its player's
     instances that weigh something on tracks with its key, in order.
     */
    method Outputs() returns (all: seq<seq<Contribution>>)
      requires Valid()
      ensures |all| == |keys|
      ensures forall p :: 0 <= p < |players| ==>
                Gathers(animations, players[p].instances, keys, all, PartOf(animations, players, p),
                        PartOf(animations, players, p + 1))
    {
      hide Routing, Table, Writers, Ids, Gathers, Differ, PartOf;
      all := seq(|keys|, _ => []);
      PartsTile(animations, players);
      for p := 0 to |players|
        invariant |all| == |keys|
        invariant forall at :: PartOf(animations, players, p) <= at < |keys| ==> all[at] == []
        invariant forall q :: 0 <= q < p ==>
                    Gathers(animations, players[q].instances, keys, all, PartOf(animations, players, q),
                            PartOf(animations, players, q + 1))
      {
        var first, end := PartOf(animations, players, p), PartOf(animations, players, p + 1);
        ghost var before := all;
        PartIsOrdered(animations, players, p);
        KeysDiffer(animations, players, p);
        all := AddSlot(animations, players[p], keys, all, first, end);
        forall q | 0 <= q < p
          ensures Gathers(animations, players[q].instances, keys, all, PartOf(animations, players, q),
                          PartOf(animations, players, q + 1))
        {
          PartsFollow(animations, players, q + 1, p);
          GathersOn(animations, players[q].instances, keys, before, all, PartOf(animations, players, q),
                    PartOf(animations, players, q + 1), first, end);
        }
      }
    }
  }

  lemma NoneAligned(animations: seq<Animation>)
    ensures Table(animations, []) == [] && Aligned(animations, [], Targets([]))
  {
  }

  lemma OnlyRoutes(players: seq<Slot>, routed: seq<Slot>)
    requires |routed| == |players|
    requires forall p :: 0 <= p < |players| ==> routed[p] == players[p].(routes := routed[p].routes)
    ensures Bare(routed) == Bare(players)
  {
  }

  lemma LoadedBare(animations: seq<Animation>, players: seq<Slot>, others: seq<Slot>)
    requires Loaded(animations, players) && Bare(others) == Bare(players)
    ensures Loaded(animations, others)
  {
    assert |others| == |players|;
    forall p | 0 <= p < |players| ensures others[p].instances == players[p].instances {
      assert Bare(others)[p] == Bare(players)[p];
    }
  }

  // What the operations make of the clips and the players.

  function Replaced(animations: seq<Animation>, a: Animation): seq<Animation> {
    if animations == [] then []
    else if animations[0].id == a.id then [a] + animations[1..]
    else [animations[0]] + Replaced(animations[1..], a)
  }

  function Without(animations: seq<Animation>, id: nat): seq<Animation> {
    if animations == [] then []
    else (if animations[0].id == id then [] else [animations[0]]) + Without(animations[1..], id)
  }

  function OtherInstances(instances: seq<Instance>, anim: nat): seq<Instance> {
    if instances == [] then []
    else OtherInstances(instances[..|instances| - 1], anim)
         + if instances[|instances| - 1].anim == anim then [] else [instances[|instances| - 1]]
  }

  function Emptied(players: seq<Slot>, anim: nat): (emptied: seq<Slot>)
    ensures |emptied| == |players|
    ensures forall p :: 0 <= p < |players| ==>
              emptied[p] == players[p].(instances := OtherInstances(players[p].instances, anim))
  {
    seq(|players|, p requires 0 <= p < |players| =>
      players[p].(instances := OtherInstances(players[p].instances, anim)))
  }

  function Others(players: seq<Slot>, id: nat): seq<Slot> {
    if players == [] then []
    else Others(players[..|players| - 1], id)
         + if players[|players| - 1].id == id then [] else [players[|players| - 1]]
  }

  function SlotOf(players: seq<Slot>, id: nat): (at: nat)
    ensures at <= |players| && (at < |players| ==> players[at].id == id)
    ensures forall p :: 0 <= p < at ==> players[p].id != id
  {
    if players == [] || players[0].id == id then 0 else SlotOf(players[1..], id) + 1
  }

  function WithInstance(slot: Slot, i: Instance): Slot {
    slot.(instances := slot.instances + [i])
  }

  function InstancesBut(instances: seq<Instance>, id: nat): seq<Instance> {
    if instances == [] then []
    else InstancesBut(instances[..|instances| - 1], id)
         + if instances[|instances| - 1].id == id then [] else [instances[|instances| - 1]]
  }

  predicate HasInstance(instances: seq<Instance>, id: nat) {
    exists i :: 0 <= i < |instances| && instances[i].id == id
  }

  function WithoutInstance(slot: Slot, id: nat): Slot {
    slot.(instances := InstancesBut(slot.instances, id))
  }

  lemma {:induction false} FindMore(animations: seq<Animation>, a: Animation, id: nat)
    ensures Find(animations, id).Some? ==> Find(animations + [a], id) == Find(animations, id)
    decreases |animations|
  {
    if animations != [] {
      assert (animations + [a])[1..] == animations[1..] + [a];
      FindMore(animations[1..], a, id);
    }
  }

  lemma LoadedMore(animations: seq<Animation>, players: seq<Slot>, a: Animation)
    requires Loaded(animations, players) && Claimed(a)
    ensures Loaded(animations + [a], players)
    ensures Agree(animations, animations + [a], players)
  {
    forall p, i | 0 <= p < |players| && 0 <= i < |players[p].instances|
      ensures Find(animations + [a], players[p].instances[i].anim) == Find(animations, players[p].instances[i].anim)
    {
      FindMore(animations, a, players[p].instances[i].anim);
    }
  }

  /** The players' instances write the same. */
  predicate Agree(animations: seq<Animation>, others: seq<Animation>, players: seq<Slot>) {
    forall p :: 0 <= p < |players| ==> AllAgree(animations, others, players[p].instances)
  }

  predicate AllAgree(animations: seq<Animation>, others: seq<Animation>, instances: seq<Instance>) {
    forall i :: 0 <= i < |instances| ==> WrittenBy(animations, instances[i]) == WrittenBy(others, instances[i])
  }

  lemma {:induction false} WrittenAgree(animations: seq<Animation>, others: seq<Animation>, instances: seq<Instance>)
    requires AllAgree(animations, others, instances)
    ensures Written(animations, instances) == Written(others, instances)
    decreases |instances|
  {
    if instances != [] {
      WrittenAgree(animations, others, instances[..|instances| - 1]);
    }
  }

  lemma {:induction false} TableAgree(animations: seq<Animation>, others: seq<Animation>, players: seq<Slot>)
    requires Agree(animations, others, players)
    ensures Table(animations, players) == Table(others, players)
    decreases |players|
  {
    if players != [] {
      WrittenAgree(animations, others, players[|players| - 1].instances);
      TableAgree(animations, others, players[..|players| - 1]);
    }
  }

  lemma AlignedSame(animations: seq<Animation>, others: seq<Animation>, players: seq<Slot>, keys: seq<string>)
    requires Agree(animations, others, players) && Aligned(animations, players, keys)
    ensures Aligned(others, players, keys) && Table(animations, players) == Table(others, players)
  {
    hide Agree, Routing, Table;
    TableAgree(animations, others, players);
    forall p | 0 <= p < |players|
      ensures Routing(others, players[p].instances, players[p].routes, keys, PartOf(others, players, p),
                      PartOf(others, players, p + 1))
    {
      AgreeFirst(animations, others, players, p);
      AgreeFirst(animations, others, players, p + 1);
      TableAgree(animations, others, players[..p]);
      TableAgree(animations, others, players[..p + 1]);
      RoutingAgree(animations, others, players, p, keys, PartOf(animations, players, p),
                   PartOf(animations, players, p + 1));
    }
  }

  lemma AgreeFirst(animations: seq<Animation>, others: seq<Animation>, players: seq<Slot>, p: nat)
    requires Agree(animations, others, players) && p <= |players|
    ensures Agree(animations, others, players[..p])
  {
  }

  lemma RoutingAgree(animations: seq<Animation>, others: seq<Animation>, players: seq<Slot>, p: nat, keys: seq<string>,
                     first: nat, end: nat)
    requires Agree(animations, others, players) && p < |players|
    requires Routing(animations, players[p].instances, players[p].routes, keys, first, end)
    ensures Routing(others, players[p].instances, players[p].routes, keys, first, end)
  {
    assert AllAgree(animations, others, players[p].instances);
  }

  lemma {:induction false} FindReplaced(animations: seq<Animation>, a: Animation, id: nat)
    ensures Find(Replaced(animations, a), id).Some? <==> Find(animations, id).Some?
    ensures forall b :: b in Replaced(animations, a) ==> b in animations || b == a
    decreases |animations|
  {
    if animations != [] {
      FindReplaced(animations[1..], a, id);
    }
  }

  lemma LoadedReplaced(animations: seq<Animation>, players: seq<Slot>, a: Animation)
    requires Loaded(animations, players) && Claimed(a)
    ensures Loaded(Replaced(animations, a), players)
  {
    FindReplaced(animations, a, 0);
    forall p, i | 0 <= p < |players| && 0 <= i < |players[p].instances|
      ensures Find(Replaced(animations, a), players[p].instances[i].anim).Some?
    {
      FindReplaced(animations, a, players[p].instances[i].anim);
    }
  }

  lemma {:induction false} WithoutTells(animations: seq<Animation>, id: nat)
    ensures |Without(animations, id)| <= |animations|
    ensures |Without(animations, id)| == |animations| <==> Find(animations, id).None?
    decreases |animations|
  {
    if animations != [] {
      WithoutTells(animations[1..], id);
    }
  }

  lemma {:induction false} FindWithout(animations: seq<Animation>, gone: nat, id: nat)
    ensures id != gone ==> Find(Without(animations, gone), id) == Find(animations, id)
    ensures forall b :: b in Without(animations, gone) ==> b in animations
    decreases |animations|
  {
    if animations != [] {
      FindWithout(animations[1..], gone, id);
      var rest := Without(animations[1..], gone);
      assert ([animations[0]] + rest)[1..] == rest && [] + rest == rest;
    }
  }

  lemma {:induction false} OtherInstancesHold(instances: seq<Instance>, anim: nat)
    ensures forall i :: i in OtherInstances(instances, anim) ==> i in instances && i.anim != anim
    decreases |instances|
  {
    if instances != [] {
      OtherInstancesHold(instances[..|instances| - 1], anim);
    }
  }

  lemma LoadedWithout(animations: seq<Animation>, players: seq<Slot>, anim: nat)
    requires Loaded(animations, players)
    ensures Loaded(Without(animations, anim), Emptied(players, anim))
  {
    FindWithout(animations, anim, anim);
    var emptied := Emptied(players, anim);
    forall p, i | 0 <= p < |emptied| && 0 <= i < |emptied[p].instances|
      ensures Find(Without(animations, anim), emptied[p].instances[i].anim).Some?
    {
      OtherInstancesHold(players[p].instances, anim);
      var left := emptied[p].instances[i];
      assert left in OtherInstances(players[p].instances, anim);
      FindWithout(animations, anim, left.anim);
    }
  }

  lemma {:induction false} OthersTell(players: seq<Slot>, id: nat)
    ensures |Others(players, id)| <= |players|
    ensures |Others(players, id)| == |players| ==> Others(players, id) == players
    ensures |Others(players, id)| != |players| <==> HasPlayer(players, id)
    ensures forall slot :: slot in Others(players, id) ==> slot in players
    decreases |players|
  {
    if players != [] {
      var init, last := players[..|players| - 1], players[|players| - 1];
      OthersTell(init, id);
      assert players == init + [last];
      OneMoreOf(init, last, id);
    }
  }

  predicate HasPlayer(players: seq<Slot>, id: nat) {
    exists p :: 0 <= p < |players| && players[p].id == id
  }

  lemma OneMoreOf(players: seq<Slot>, last: Slot, id: nat)
    ensures HasPlayer(players + [last], id) <==> HasPlayer(players, id) || last.id == id
  {
    var more := players + [last];
    assert more[|players|] == last;
    if HasPlayer(players, id) {
      var p :| 0 <= p < |players| && players[p].id == id;
      assert more[p] == players[p];
    }
  }

  lemma LoadedOthers(animations: seq<Animation>, players: seq<Slot>, id: nat)
    requires Loaded(animations, players)
    ensures Loaded(animations, Others(players, id))
  {
    OthersTell(players, id);
    var others := Others(players, id);
    forall p, i | 0 <= p < |others| && 0 <= i < |others[p].instances|
      ensures Find(animations, others[p].instances[i].anim).Some?
    {
      assert others[p] in others;
    }
  }

  lemma {:induction false} OtherInstancesTell(instances: seq<Instance>, id: nat)
    ensures |InstancesBut(instances, id)| <= |instances|
    ensures |InstancesBut(instances, id)| == |instances| ==> InstancesBut(instances, id) == instances
    ensures |InstancesBut(instances, id)| != |instances| <==> HasInstance(instances, id)
    ensures forall i :: i in InstancesBut(instances, id) ==> i in instances
    decreases |instances|
  {
    if instances != [] {
      var init := instances[..|instances| - 1];
      OtherInstancesTell(init, id);
      if p :| 0 <= p < |init| && init[p].id == id {
        assert instances[p].id == id;
      }
      assert instances == init + [instances[|instances| - 1]];
    }
  }

  lemma LoadedFewer(animations: seq<Animation>, players: seq<Slot>, at: nat, fewer: Slot)
    requires Loaded(animations, players) && at < |players|
    requires forall i :: i in fewer.instances ==> i in players[at].instances
    ensures Loaded(animations, players[at := fewer])
  {
    var after := players[at := fewer];
    forall p, i | 0 <= p < |after| && 0 <= i < |after[p].instances|
      ensures Find(animations, after[p].instances[i].anim).Some?
    {
      assert after[p].instances[i] in players[p].instances;
    }
  }

  // Where the samples go.

  /** An instance's sample of the `track`th of the tracks it plays. */
  datatype Contribution = Contribution(instance: Instance, track: nat)

  /** Of the instances, those that weigh something, on the tracks with the key. */
  function OfInstance(animations: seq<Animation>, i: Instance, key: string, n: nat): seq<Contribution>
    requires n <= |WrittenBy(animations, i)|
  {
    if n == 0 then []
    else OfInstance(animations, i, key, n - 1)
         + if WrittenBy(animations, i)[n - 1].target == key then [Contribution(i, n - 1)] else []
  }

  function Writers(animations: seq<Animation>, instances: seq<Instance>, key: string): seq<Contribution> {
    if instances == [] then []
    else
      var last := instances[|instances| - 1];
      Writers(animations, instances[..|instances| - 1], key)
      + if last.weight <= 0.0 then [] else OfInstance(animations, last, key, |WrittenBy(animations, last)|)
  }

  /** The keys of a part differ. */
  predicate Differ(keys: seq<string>, first: nat, end: nat) {
    end <= |keys| && forall a, b :: first <= a < b < end ==> keys[a] != keys[b]
  }

  /** A player's part follows those before it. */
  lemma PartIsOrdered(animations: seq<Animation>, players: seq<Slot>, p: nat)
    requires p < |players|
    ensures PartOf(animations, players, p) <= PartOf(animations, players, p + 1) <= |Table(animations, players)|
    ensures Table(animations, players)[PartOf(animations, players, p)..PartOf(animations, players, p + 1)]
            == Firsts(Written(animations, players[p].instances))
  {
    hide Firsts, Written;
    TableGrows(animations, players, p + 1);
    PartIsItsOwn(animations, players, p);
    TableStarts(animations, players, p + 1);
  }

  lemma PartIsItsOwn(animations: seq<Animation>, players: seq<Slot>, p: nat)
    requires p < |players|
    ensures Table(animations, players[..p + 1])
            == Table(animations, players[..p]) + Firsts(Written(animations, players[p].instances))
  {
    hide Firsts, Written;
    var upTo := players[..p + 1];
    assert upTo[..|upTo| - 1] == players[..p] && upTo[|upTo| - 1] == players[p];
  }

  lemma TableStarts(animations: seq<Animation>, players: seq<Slot>, p: nat)
    requires p <= |players|
    ensures PartOf(animations, players, p) <= |Table(animations, players)|
    ensures Table(animations, players)[..PartOf(animations, players, p)] == Table(animations, players[..p])
  {
    hide Firsts, Written;
    TableGrows(animations, players, p);
  }

  /** No key repeats within a player's part. */
  lemma KeysDiffer(animations: seq<Animation>, players: seq<Slot>, p: nat)
    requires p < |players|
    ensures Differ(Targets(Table(animations, players)), PartOf(animations, players, p),
                   PartOf(animations, players, p + 1))
  {
    hide Table, Firsts, PartOf, Targets;
    var table := Table(animations, players);
    var first, end := PartOf(animations, players, p), PartOf(animations, players, p + 1);
    PartIsOrdered(animations, players, p);
    FirstsDiffer(Written(animations, players[p].instances));
    forall a, b | first <= a < b < end ensures table[a].target != table[b].target {
      assert table[first..end][a - first] == table[a] && table[first..end][b - first] == table[b];
    }
  }

  /** The parts follow one another over the whole table. */
  lemma {:induction false} PartsFollow(animations: seq<Animation>, players: seq<Slot>, p: nat, q: nat)
    requires p <= q <= |players|
    ensures PartOf(animations, players, p) <= PartOf(animations, players, q)
    decreases q
  {
    hide Table, Firsts, Written;
    if p < q {
      PartsFollow(animations, players, p, q - 1);
      PartIsOrdered(animations, players, q - 1);
    }
  }

  lemma PartsTile(animations: seq<Animation>, players: seq<Slot>)
    ensures PartOf(animations, players, 0) == 0
    ensures PartOf(animations, players, |players|) == |Table(animations, players)|
    ensures forall p, q :: 0 <= p <= q <= |players| ==> PartOf(animations, players, p) <= PartOf(animations, players, q)
  {
    assert players[..|players|] == players && players[..0] == [];
    forall p, q | 0 <= p <= q <= |players| ensures PartOf(animations, players, p) <= PartOf(animations, players, q) {
      PartsFollow(animations, players, p, q);
    }
  }

  /** Nothing outside a part changes. */
  predicate SameOutside(a: seq<seq<Contribution>>, b: seq<seq<Contribution>>, first: nat, end: nat) {
    |a| == |b| && forall at :: 0 <= at < |a| && !(first <= at < end) ==> a[at] == b[at]
  }

  /** Each position of a part has exactly the samples on its key, in order. */
  ghost predicate Gathers(animations: seq<Animation>, instances: seq<Instance>, keys: seq<string>,
                          all: seq<seq<Contribution>>, first: nat, end: nat)
  {
    && end <= |keys| && end <= |all|
    && forall at :: first <= at < end ==> all[at] == Writers(animations, instances, keys[at])
  }

  lemma GathersOn(animations: seq<Animation>, instances: seq<Instance>, keys: seq<string>,
                  before: seq<seq<Contribution>>, all: seq<seq<Contribution>>, first: nat, end: nat, next: nat,
                  last: nat)
    requires Gathers(animations, instances, keys, before, first, end) && SameOutside(before, all, next, last)
    requires end <= next
    ensures Gathers(animations, instances, keys, all, first, end)
  {
  }

  method AddSlot(animations: seq<Animation>, slot: Slot, keys: seq<string>, start: seq<seq<Contribution>>, first: nat,
                 end: nat)
    returns (all: seq<seq<Contribution>>)
    requires Routing(animations, slot.instances, slot.routes, keys, first, end) && Differ(keys, first, end)
    requires |start| == |keys| && end <= |keys| && forall at :: first <= at < end ==> start[at] == []
    ensures SameOutside(start, all, first, end) && Gathers(animations, slot.instances, keys, all, first, end)
  {
    hide Differ, Routing;
    all := start;
    assert slot.instances[..0] == [];
    for i := 0 to |slot.instances|
      invariant SameOutside(start, all, first, end) && Gathers(animations, slot.instances[..i], keys, all, first, end)
    {
      RoutedAt(animations, slot, keys, first, end, i);
      var instance := slot.instances[i];
      assert slot.instances[..i + 1][..i] == slot.instances[..i];
      if instance.weight > 0.0 {
        all := AddSamples(animations, instance, slot.routes[i], keys, all, first, end);
      }
    }
    assert slot.instances[..|slot.instances|] == slot.instances;
  }

  lemma RoutedAt(animations: seq<Animation>, slot: Slot, keys: seq<string>, first: nat, end: nat, i: nat)
    requires Routing(animations, slot.instances, slot.routes, keys, first, end) && i < |slot.instances|
    ensures i < |slot.routes| && Routed(WrittenBy(animations, slot.instances[i]), slot.routes[i], keys, first, end)
  {
  }

  method AddSamples(animations: seq<Animation>, i: Instance, routes: seq<nat>, keys: seq<string>,
                    start: seq<seq<Contribution>>, first: nat, end: nat)
    returns (all: seq<seq<Contribution>>)
    requires Routed(WrittenBy(animations, i), routes, keys, first, end) && Differ(keys, first, end)
    requires |start| == |keys| && end <= |keys|
    ensures SameOutside(start, all, first, end)
    ensures forall at :: first <= at < end ==>
              all[at] == start[at] + OfInstance(animations, i, keys[at], |WrittenBy(animations, i)|)
  {
    all := start;
    for k := 0 to |routes|
      invariant SameOutside(start, all, first, end)
      invariant forall at :: first <= at < end ==> all[at] == start[at] + OfInstance(animations, i, keys[at], k)
    {
      all := all[routes[k] := all[routes[k]] + [Contribution(i, k)]];
    }
  }
}
