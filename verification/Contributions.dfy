/**
 What an engine plays, keeps and writes, told from its clips, players and
 instances.
 */
module Contributions {
  import opened Integers
  import opened Selections
  import opened Outputs

  // What plays.

  /** The first track on each target plays, if it has a keypoint, and no other. */
  lemma PlaysFirsts(a: Animation)
    requires Claimed(a)
    ensures Keeps(a.tracks, Played(a),
                  set k: nat | k < |a.tracks| && !a.tracks[k].empty
                               && forall j :: 0 <= j < k ==> a.tracks[j].target != a.tracks[k].target)
  {
    var at := set k: nat | k < |a.tracks| && !a.tracks[k].empty
                           && forall j :: 0 <= j < k ==> a.tracks[j].target != a.tracks[k].target;
    PlaysOf(a, |a.tracks|, at);
    assert a.tracks[..|a.tracks|] == a.tracks;
  }

  lemma {:induction false} PlaysOf(a: Animation, n: nat, at: set<nat>)
    requires |a.plays| == |a.tracks| && n <= |a.tracks|
    requires forall k: nat :: k < |a.tracks| ==> (k in at <==> a.plays[k] && !a.tracks[k].empty)
    ensures Keeps(a.tracks[..n], PlayedOf(a, n), at)
    decreases n
  {
    if n == 0 {
      KeepsNone<Track>(at);
    } else {
      PlaysOf(a, n - 1, at);
      KeepsMore(a.tracks[..n - 1], PlayedOf(a, n - 1), a.tracks[n - 1], at);
      assert a.tracks[..n - 1] + [a.tracks[n - 1]] == a.tracks[..n];
    }
  }

  /** The first clip of an id. */
  predicate IsFirstClip(animations: seq<Animation>, k: nat, id: nat) {
    k < |animations| && animations[k].id == id && forall j :: 0 <= j < k ==> animations[j].id != id
  }

  lemma {:induction false} FindsFirst(animations: seq<Animation>, k: nat, id: nat)
    requires IsFirstClip(animations, k, id)
    ensures Find(animations, id) == Some(animations[k])
    decreases |animations|
  {
    if k > 0 {
      var rest := animations[1..];
      assert forall j :: 0 <= j < k - 1 ==> rest[j] == animations[j + 1];
      FindsFirst(rest, k - 1, id);
    }
  }

  /** An instance writes what the first clip of its id plays. */
  lemma WritesItsClip(animations: seq<Animation>, i: Instance, k: nat)
    requires IsFirstClip(animations, k, i.anim)
    ensures WrittenBy(animations, i) == Played(animations[k])
  {
    FindsFirst(animations, k, i.anim);
  }

  /** An instance's tracks follow those of the instances before it. */
  lemma {:induction false} WritesInOrder(animations: seq<Animation>, instances: seq<Instance>, k: nat)
    requires k < |instances|
    ensures Written(animations, instances[..k]) + WrittenBy(animations, instances[k]) <= Written(animations, instances)
    ensures |Written(animations, [])| == 0
    decreases |instances|
  {
    var init := instances[..|instances| - 1];
    if k < |init| {
      WritesInOrder(animations, init, k);
      assert init[..k] == instances[..k];
    } else {
      assert instances[..k] == init;
    }
  }

  /** A place for the first track on each target, in order. */
  lemma {:induction false} FirstsKeep(tracks: seq<Track>)
    ensures Keeps(tracks, Firsts(tracks), set k: nat | k < |tracks| && IsFirst(tracks, k))
    decreases |tracks|
  {
    var at := set k: nat | k < |tracks| && IsFirst(tracks, k);
    FirstsKeepTo(tracks, |tracks|, at);
    assert tracks[..|tracks|] == tracks;
  }

  lemma {:induction false} FirstsKeepTo(tracks: seq<Track>, n: nat, at: set<nat>)
    requires n <= |tracks| && forall k: nat :: k in at <==> k < |tracks| && IsFirst(tracks, k)
    ensures Keeps(tracks[..n], Firsts(tracks[..n]), at)
    decreases n
  {
    if n == 0 {
      KeepsNone<Track>(at);
    } else {
      var init, last := tracks[..n - 1], tracks[n - 1];
      FirstsKeepTo(tracks, n - 1, at);
      KeepsMore(init, Firsts(init), last, at);
      FirstsHold(init, last.target);
      assert tracks[..n] == init + [last];
      FirstsMore(init, last);
      assert Firsts(init) + [] == Firsts(init);
    }
  }

  // What the commands leave.

  /** Removing players leaves every other, in order. */
  lemma {:induction false} PlayersStay(players: seq<Slot>, id: nat)
    ensures Keeps(players, Others(players, id), set k: nat | k < |players| && players[k].id != id)
  {
    PlayersStayTo(players, |players|, id, set k: nat | k < |players| && players[k].id != id);
    assert players[..|players|] == players;
  }

  lemma {:induction false} PlayersStayTo(players: seq<Slot>, n: nat, id: nat, at: set<nat>)
    requires n <= |players| && forall k: nat :: k < |players| ==> (k in at <==> players[k].id != id)
    ensures Keeps(players[..n], Others(players[..n], id), at)
    decreases n
  {
    if n == 0 {
      KeepsNone<Slot>(at);
    } else {
      PlayersStayTo(players, n - 1, id, at);
      KeepsMore(players[..n - 1], Others(players[..n - 1], id), players[n - 1], at);
      assert players[..n] == players[..n - 1] + [players[n - 1]] && players[..n][..n - 1] == players[..n - 1];
    }
  }

  /** Removing an instance leaves its player, and every other instance of it, in
      order. */
  lemma InstancesStay(slot: Slot, id: nat)
    ensures var left := WithoutInstance(slot, id);
            && left == slot.(instances := left.instances)
            && Keeps(slot.instances, left.instances, set k: nat | k < |slot.instances| && slot.instances[k].id != id)
  {
    var instances := slot.instances;
    InstancesStayTo(instances, |instances|, id, set k: nat | k < |instances| && instances[k].id != id);
    assert instances[..|instances|] == instances;
  }

  lemma {:induction false} InstancesStayTo(instances: seq<Instance>, n: nat, id: nat, at: set<nat>)
    requires n <= |instances| && forall k: nat :: k < |instances| ==> (k in at <==> instances[k].id != id)
    ensures Keeps(instances[..n], InstancesBut(instances[..n], id), at)
    decreases n
  {
    if n == 0 {
      KeepsNone<Instance>(at);
    } else {
      var init := instances[..n - 1];
      InstancesStayTo(instances, n - 1, id, at);
      KeepsMore(init, InstancesBut(init, id), instances[n - 1], at);
      assert instances[..n] == init + [instances[n - 1]] && instances[..n][..n - 1] == init;
    }
  }

  /** Unloading a clip leaves the instances of every other clip, in order. */
  lemma OtherClipsInstancesStay(instances: seq<Instance>, anim: nat)
    ensures Keeps(instances, OtherInstances(instances, anim), set k: nat | k < |instances| && instances[k].anim != anim)
  {
    OthersOfClipTo(instances, |instances|, anim, set k: nat | k < |instances| && instances[k].anim != anim);
    assert instances[..|instances|] == instances;
  }

  lemma {:induction false} OthersOfClipTo(instances: seq<Instance>, n: nat, anim: nat, at: set<nat>)
    requires n <= |instances| && forall k: nat :: k < |instances| ==> (k in at <==> instances[k].anim != anim)
    ensures Keeps(instances[..n], OtherInstances(instances[..n], anim), at)
    decreases n
  {
    if n == 0 {
      KeepsNone<Instance>(at);
    } else {
      var init := instances[..n - 1];
      OthersOfClipTo(instances, n - 1, anim, at);
      KeepsMore(init, OtherInstances(init, anim), instances[n - 1], at);
      assert instances[..n] == init + [instances[n - 1]] && instances[..n][..n - 1] == init;
    }
  }

  lemma {:induction false} ClipsStay(animations: seq<Animation>, id: nat, at: set<nat>)
    requires forall k: nat :: k in at <==> k < |animations| && animations[k].id != id
    ensures Keeps(animations, Without(animations, id), at)
    decreases |animations|
  {
    hide Keeps, Picks;
    if animations == [] {
      KeepsNone<Animation>(at);
    } else {
      var first, rest := animations[0], animations[1..];
      var later := set k: nat | k < |rest| && rest[k].id != id;
      forall k: nat ensures k in later <==> k + 1 in at {
        assert k < |rest| ==> rest[k] == animations[k + 1];
      }
      ClipsStay(rest, id, later);
      KeepsBefore(first, rest, Without(rest, id), later, at);
      assert animations == [first] + rest;
    }
  }

  /** Reloading a clip replaces the first of its id and no other. */
  lemma {:induction false} OneIsReplaced(animations: seq<Animation>, a: Animation, k: nat)
    requires k < |animations|
    ensures |Replaced(animations, a)| == |animations|
    ensures Replaced(animations, a)[k] == if IsFirstClip(animations, k, a.id) then a else animations[k]
    decreases |animations|
  {
    if animations[0].id != a.id {
      var rest := animations[1..];
      if k > 0 {
        OneIsReplaced(rest, a, k - 1);
        FirstMovesOn(animations, k, a.id);
      } else if |animations| > 1 {
        OneIsReplaced(rest, a, 0);
      }
    }
  }

  lemma FirstMovesOn(animations: seq<Animation>, k: nat, id: nat)
    requires 0 < k < |animations| && animations[0].id != id
    ensures IsFirstClip(animations, k, id) <==> IsFirstClip(animations[1..], k - 1, id)
  {
    var rest := animations[1..];
    if IsFirstClip(rest, k - 1, id) {
      forall j | 0 <= j < k ensures animations[j].id != id {
        assert j > 0 ==> animations[j] == rest[j - 1];
      }
    }
  }

  // What contributes.

  /** The instance weighs something, and plays `track` on the key. */
  predicate Weighs(animations: seq<Animation>, i: Instance, key: string, track: nat) {
    i.weight > 0.0 && track < |WrittenBy(animations, i)| && WrittenBy(animations, i)[track].target == key
  }

  /** Each key once, from the tracks that play. */
  predicate Distinct(played: seq<Track>) {
    forall i, j :: 0 <= i < j < |played| ==> played[i].target != played[j].target
  }

  lemma {:induction false} OneOfInstance(animations: seq<Animation>, i: Instance, key: string, n: nat, t: nat)
    requires n <= |WrittenBy(animations, i)| && Distinct(WrittenBy(animations, i))
    requires t < n && WrittenBy(animations, i)[t].target == key
    ensures OfInstance(animations, i, key, n) == [Contribution(i, t)]
    decreases n
  {
    if t < n - 1 {
      OneOfInstance(animations, i, key, n - 1, t);
    } else {
      NoneOfInstance(animations, i, key, n - 1);
    }
  }

  lemma {:induction false} NoneOfInstance(animations: seq<Animation>, i: Instance, key: string, n: nat)
    requires n <= |WrittenBy(animations, i)|
    requires forall t: nat :: t < n ==> WrittenBy(animations, i)[t].target != key
    ensures OfInstance(animations, i, key, n) == []
    decreases n
  {
    if n > 0 {
      NoneOfInstance(animations, i, key, n - 1);
    }
  }

  /** The samples on a key are of the instances that weigh something and play a
      track on it, one of each, in order. */
  ghost predicate Gathered(animations: seq<Animation>, instances: seq<Instance>, key: string, places: seq<nat>,
                           samples: seq<Contribution>)
  {
    && |samples| == |places|
    && (forall i, j :: 0 <= i < j < |places| ==> places[i] < places[j])
    && (forall j :: 0 <= j < |places| ==>
          && places[j] < |instances| && samples[j].instance == instances[places[j]]
          && Weighs(animations, instances[places[j]], key, samples[j].track))
    && forall k: nat, t: nat :: k < |instances| && Weighs(animations, instances[k], key, t) ==> k in places
  }

  lemma GatheredMore(animations: seq<Animation>, init: seq<Instance>, last: Instance, key: string, places: seq<nat>,
                     samples: seq<Contribution>, t: nat)
    requires Gathered(animations, init, key, places, samples) && Weighs(animations, last, key, t)
    ensures Gathered(animations, init + [last], key, places + [|init|], samples + [Contribution(last, t)])
  {
    hide Weighs;
    var all, more: seq<nat> := init + [last], places + [|init|];
    assert more[|places|] == |init|;
    forall k: nat, u: nat | k < |all| && Weighs(animations, all[k], key, u) ensures k in more {
      if k < |init| {
        assert all[k] == init[k] && k in places;
      }
    }
  }

  lemma GatheredStill(animations: seq<Animation>, init: seq<Instance>, last: Instance, key: string, places: seq<nat>,
                      samples: seq<Contribution>)
    requires Gathered(animations, init, key, places, samples)
    requires forall t: nat :: !Weighs(animations, last, key, t)
    ensures Gathered(animations, init + [last], key, places, samples)
  {
    hide Weighs;
    var all := init + [last];
    forall k: nat, t: nat | k < |all| && Weighs(animations, all[k], key, t) ensures k in places {
      assert k < |init| ==> all[k] == init[k];
    }
  }

  lemma {:induction false} GathersThose(animations: seq<Animation>, instances: seq<Instance>, key: string)
    returns (places: seq<nat>)
    requires forall k :: 0 <= k < |instances| ==> Distinct(WrittenBy(animations, instances[k]))
    ensures Gathered(animations, instances, key, places, Writers(animations, instances, key))
    decreases |instances|
  {
    hide Distinct, WrittenBy, OfInstance, Gathered;
    places := [];
    if instances == [] {
      GatheredNothing(animations, key);
    } else {
      var init, last := instances[..|instances| - 1], instances[|instances| - 1];
      assert instances == init + [last];
      places := GathersThose(animations, init, key);
      var before, n := Writers(animations, init, key), |WrittenBy(animations, last)|;
      if t: nat :| Weighs(animations, last, key, t) {
        OneOfInstance(animations, last, key, n, t);
        GatheredMore(animations, init, last, key, places, before, t);
        places := places + [|init|];
      } else {
        GatheredStill(animations, init, last, key, places, before);
        if last.weight > 0.0 {
          forall t: nat | t < n ensures WrittenBy(animations, last)[t].target != key {
            assert !Weighs(animations, last, key, t);
          }
          NoneOfInstance(animations, last, key, n);
        }
        assert before + [] == before;
      }
    }
  }

  lemma GatheredNothing(animations: seq<Animation>, key: string)
    ensures Gathered(animations, [], key, [], [])
  {
  }

  /** So it is of a clip loaded under the engine's promise. */
  lemma ClipsPlayOnce(animations: seq<Animation>, players: seq<Slot>, p: nat, k: nat)
    requires Loaded(animations, players) && p < |players| && k < |players[p].instances|
    ensures Distinct(WrittenBy(animations, players[p].instances[k]))
  {
    var a := Find(animations, players[p].instances[k].anim).value;
    FoundIsLoaded(animations, players[p].instances[k].anim);
    PlayedOnce(a, |a.tracks|);
  }

  lemma {:induction false} FoundIsLoaded(animations: seq<Animation>, id: nat)
    ensures Find(animations, id).Some? ==> Find(animations, id).value in animations
    decreases |animations|
  {
    if animations != [] {
      FoundIsLoaded(animations[1..], id);
    }
  }

  /** What `Outputs` gathers in a player's part, told from its instances. */
  lemma OutputsGather(animations: seq<Animation>, players: seq<Slot>, p: nat, key: string) returns (places: seq<nat>)
    requires Loaded(animations, players) && p < |players|
    ensures Gathered(animations, players[p].instances, key, places, Writers(animations, players[p].instances, key))
  {
    forall k | 0 <= k < |players[p].instances| ensures Distinct(WrittenBy(animations, players[p].instances[k])) {
      ClipsPlayOnce(animations, players, p, k);
    }
    places := GathersThose(animations, players[p].instances, key);
  }
}
