/** What is left of a list, in order. */
module Selections {

  /** `part` is what of `whole` the increasing places hold, in order. */
  ghost predicate Picks<T>(whole: seq<T>, places: seq<nat>, part: seq<T>) {
    && |part| == |places|
    && (forall i, j :: 0 <= i < j < |places| ==> places[i] < places[j])
    && (forall i :: 0 <= i < |places| ==> places[i] < |whole| && whole[places[i]] == part[i])
  }

  /** `part` is what of `whole` stands at those of the places, in order. */
  ghost predicate Keeps<T>(whole: seq<T>, part: seq<T>, at: set<nat>) {
    exists places: seq<nat> :: Picks(whole, places, part) && forall k: nat :: k < |whole| ==> (k in places <==> k in at)
  }

  lemma KeepsNone<T>(at: set<nat>)
    ensures Keeps<T>([], [], at)
  {
    assert Picks<T>([], [], []);
  }

  /** One more at the end, kept or not. */
  lemma KeepsMore<T>(init: seq<T>, part: seq<T>, last: T, at: set<nat>)
    requires Keeps(init, part, at)
    ensures Keeps(init + [last], part + if |init| in at then [last] else [], at)
  {
    var places: seq<nat> :| Picks(init, places, part) && forall k: nat :: k < |init| ==> (k in places <==> k in at);
    var whole := init + [last];
    if |init| in at {
      var more: seq<nat> := places + [|init|];
      assert Picks(whole, more, part + [last]);
    } else {
      assert Picks(whole, places, part);
      assert part + [] == part;
    }
  }

  function MovedOn(places: seq<nat>): (moved: seq<nat>)
    ensures |moved| == |places| && forall i :: 0 <= i < |places| ==> moved[i] == places[i] + 1
  {
    seq(|places|, i requires 0 <= i < |places| => places[i] + 1)
  }

  lemma MovedOnHas(places: seq<nat>, k: nat)
    ensures k in MovedOn(places) <==> k > 0 && k - 1 in places
  {
    hide MovedOn;
    var moved := MovedOn(places);
    if k in moved {
      var i :| 0 <= i < |moved| && moved[i] == k;
      assert places[i] == k - 1;
    }
    if k > 0 && k - 1 in places {
      var i :| 0 <= i < |places| && places[i] == k - 1;
      assert moved[i] == k;
    }
  }

  lemma PicksMovedOn<T>(first: T, rest: seq<T>, places: seq<nat>, part: seq<T>)
    requires Picks(rest, places, part)
    ensures Picks([first] + rest, MovedOn(places), part)
    ensures Picks([first] + rest, [0] + MovedOn(places), [first] + part)
  {
    hide MovedOn;
  }

  /** One more in front, the places moving on by one. */
  lemma KeepsBefore<T>(first: T, rest: seq<T>, part: seq<T>, later: set<nat>, at: set<nat>)
    requires Keeps(rest, part, later) && forall k: nat :: k in later <==> k + 1 in at
    ensures Keeps([first] + rest, (if 0 in at then [first] else []) + part, at)
  {
    hide Picks, MovedOn;
    var places: seq<nat> :| Picks(rest, places, part) && forall k: nat :: k < |rest| ==> (k in places <==> k in later);
    PicksMovedOn(first, rest, places, part);
    var moved: seq<nat> := if 0 in at then [0] + MovedOn(places) else MovedOn(places);
    forall k: nat | k < |[first] + rest| ensures k in moved <==> k in at {
      MovedOnHas(places, k);
      assert k > 0 ==> (k - 1 in later <==> k in at);
    }
    assert [] + part == part;
  }
}
