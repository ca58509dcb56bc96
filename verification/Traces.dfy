/**
 Traces: each tick's changes reported at each trace's own pace, so that a
 client that applies the reports knows every due tick's statuses.
 */
module Traces {
  import opened Integers
  import opened Graphs

  datatype NodeStatus = NotReached | Succeeded | Failed | Ran

  datatype Activity = Idle | Called | Cached

  // Entries, where a node that has none stands as `absent`.

  function Entry<T>(m: map<Uuid, T>, node: Uuid, absent: T): T {
    if node in m then m[node] else absent
  }

  /** The maps hold alike. */
  ghost predicate Alike<T(!new)>(a: map<Uuid, T>, b: map<Uuid, T>, absent: T) {
    forall node :: Entry(a, node, absent) == Entry(b, node, absent)
  }

  /** What a record comes to: a node recorded twice has its last entry. */
  function Recorded<T>(record: seq<(Uuid, T)>): map<Uuid, T> {
    if record == [] then map[]
    else Recorded(record[..|record| - 1])[record[|record| - 1].0 := record[|record| - 1].1]
  }

  method Collect<T>(record: seq<(Uuid, T)>) returns (entries: map<Uuid, T>)
    ensures entries == Recorded(record)
  {
    entries := map[];
    for i := 0 to |record|
      invariant entries == Recorded(record[..i])
    {
      assert record[..i + 1][..i] == record[..i];
      entries := entries[record[i].0 := record[i].1];
    }
    assert record[..|record|] == record;
  }

  predicate Changed<T(==)>(before: map<Uuid, T>, after: map<Uuid, T>, node: Uuid) {
    (node in before) != (node in after) || (node in before && before[node] != after[node])
  }

  /** The nodes whose entries differ, one that either lacks included. */
  method Changes<T(==)>(before: map<Uuid, T>, after: map<Uuid, T>) returns (changed: set<Uuid>)
    ensures forall node :: node in changed <==> Changed(before, after, node)
  {
    changed := {};
    var left := after.Keys;
    while left != {}
      invariant left <= after.Keys
      invariant forall node :: node in changed <==> node in after && node !in left && Changed(before, after, node)
      decreases |left|
    {
      var node :| node in left;
      if node !in before || before[node] != after[node] {
        changed := changed + {node};
      }
      left := left - {node};
    }
    left := before.Keys;
    while left != {}
      invariant left <= before.Keys
      invariant forall node :: node in changed <==>
                  Changed(before, after, node) && (node in after || (node in before && node !in left))
      decreases |left|
    {
      var node :| node in left;
      if node !in after {
        changed := changed + {node};
      }
      left := left - {node};
    }
  }

  // What a trace last reported of the nodes, and which may differ since.

  datatype Ledger<T> = Ledger(reported: map<Uuid, T>, changed: set<Uuid>)

  function Settle<T(==)>(m: map<Uuid, T>, node: Uuid, now: T, absent: T): map<Uuid, T> {
    if now == absent then m - {node} else m[node := now]
  }

  /** Whether `now` differs from what was reported, which it becomes. */
  method Differs<T(==)>(reported: map<Uuid, T>, node: Uuid, now: T, absent: T)
    returns (after: map<Uuid, T>, differs: bool)
    ensures after == Settle(reported, node, now, absent)
    ensures differs <==> Entry(reported, node, absent) != now
  {
    var before := if node in reported then Some(reported[node]) else None;
    if now == absent {
      after := reported - {node};
    } else {
      after := reported[node := now];
    }
    differs := (if before.Some? then before.value else absent) != now;
  }

  /** The entries of a report: each node once, with what it now is. */
  ghost predicate States<T(!new)>(entries: seq<(Uuid, T)>, reported: map<Uuid, T>, nodes: set<Uuid>, now: map<Uuid, T>,
                                  absent: T)
  {
    && (forall i, j :: 0 <= i < j < |entries| ==> entries[i].0 != entries[j].0)
    && (forall i :: 0 <= i < |entries| ==>
          entries[i].0 in nodes && entries[i].1 == Entry(now, entries[i].0, absent)
          && entries[i].1 != Entry(reported, entries[i].0, absent))
    && (forall node :: node in nodes && Entry(now, node, absent) != Entry(reported, node, absent) ==>
          Listed(entries, node))
  }

  ghost predicate Listed<T>(entries: seq<(Uuid, T)>, node: Uuid) {
    exists i :: 0 <= i < |entries| && entries[i].0 == node
  }

  /** What is reported of the nodes is what they now are; the others keep theirs. */
  ghost predicate Drained<T(!new)>(after: map<Uuid, T>, reported: map<Uuid, T>, nodes: set<Uuid>, now: map<Uuid, T>,
                                   absent: T)
  {
    forall node :: Entry(after, node, absent) == Entry(if node in nodes then now else reported, node, absent)
  }

  lemma OneMoreDrained<T(!new)>(after: map<Uuid, T>, reported: map<Uuid, T>, nodes: set<Uuid>, now: map<Uuid, T>,
                                absent: T, node: Uuid)
    requires Drained(after, reported, nodes, now, absent)
    ensures Drained(Settle(after, node, Entry(now, node, absent), absent), reported, nodes + {node}, now, absent)
  {
  }

  lemma NoMoreStated<T(!new)>(entries: seq<(Uuid, T)>, reported: map<Uuid, T>, nodes: set<Uuid>, now: map<Uuid, T>,
                              absent: T, node: Uuid)
    requires States(entries, reported, nodes, now, absent)
    requires Entry(now, node, absent) == Entry(reported, node, absent)
    ensures States(entries, reported, nodes + {node}, now, absent)
  {
  }

  lemma Moved(told: set<Uuid>, left: set<Uuid>, node: Uuid)
    requires told !! left && node in left
    ensures (told + {node}) + (left - {node}) == told + left && (told + {node}) !! (left - {node})
  {
  }

  /** States what changed since the last report, which the ledger takes. */
  method Drain<T(==,!new)>(ledger: Ledger<T>, now: map<Uuid, T>, absent: T)
    returns (after: Ledger<T>, entries: seq<(Uuid, T)>)
    ensures after.changed == {} && States(entries, ledger.reported, ledger.changed, now, absent)
    ensures Drained(after.reported, ledger.reported, ledger.changed, now, absent)
  {
    var left, reported := ledger.changed, ledger.reported;
    entries := [];
    ghost var told: set<Uuid> := {};
    while left != {}
      invariant told + left == ledger.changed && told !! left
      invariant States(entries, ledger.reported, told, now, absent)
      invariant Drained(reported, ledger.reported, told, now, absent)
      decreases |left|
    {
      var node :| node in left;
      var value := Entry(now, node, absent);
      OneMoreDrained(reported, ledger.reported, told, now, absent, node);
      var differs: bool;
      reported, differs := Differs(reported, node, value, absent);
      if differs {
        OneMoreStated(entries, ledger.reported, told, now, absent, node);
        entries := entries + [(node, value)];
      } else {
        NoMoreStated(entries, ledger.reported, told, now, absent, node);
      }
      Moved(told, left, node);
      left, told := left - {node}, told + {node};
    }
    after := Ledger(reported, {});
  }

  lemma OneMoreStated<T(!new)>(entries: seq<(Uuid, T)>, reported: map<Uuid, T>, nodes: set<Uuid>, now: map<Uuid, T>,
                               absent: T, node: Uuid)
    requires States(entries, reported, nodes, now, absent) && node !in nodes
    requires Entry(now, node, absent) != Entry(reported, node, absent)
    ensures States(entries + [(node, Entry(now, node, absent))], reported, nodes + {node}, now, absent)
  {
    var more := entries + [(node, Entry(now, node, absent))];
    forall other | other in nodes && Entry(now, other, absent) != Entry(reported, other, absent)
      ensures Listed(more, other)
    {
      assert Listed(entries, other);
      var i :| 0 <= i < |entries| && entries[i].0 == other;
      assert more[i].0 == other;
    }
    assert more[|entries|].0 == node;
  }

  // What a client makes of a report.

  function Told<T(==)>(m: map<Uuid, T>, entries: seq<(Uuid, T)>, absent: T): map<Uuid, T> {
    if entries == [] then m
    else
      var last := entries[|entries| - 1];
      Settle(Told(m, entries[..|entries| - 1], absent), last.0, last.1, absent)
  }

  /** A node listed once is as the entry states; one not listed stays. */
  lemma {:induction false} ToldHolds<T(!new)>(m: map<Uuid, T>, entries: seq<(Uuid, T)>, absent: T, node: Uuid)
    requires forall i, j :: 0 <= i < j < |entries| ==> entries[i].0 != entries[j].0
    ensures !Listed(entries, node) ==> Entry(Told(m, entries, absent), node, absent) == Entry(m, node, absent)
    ensures forall i :: 0 <= i < |entries| && entries[i].0 == node ==>
              Entry(Told(m, entries, absent), node, absent) == entries[i].1
    decreases |entries|
  {
    if entries != [] {
      var init := entries[..|entries| - 1];
      ToldHolds(m, init, absent, node);
      if Listed(init, node) {
        var i :| 0 <= i < |init| && init[i].0 == node;
        assert entries[i].0 == node;
      }
      assert entries[|entries| - 1].0 == node ==> Listed(entries, node);
    }
  }

  /** A client that holds what was reported, told what changed, holds what is. */
  lemma ToldIsNow<T(!new)>(client: map<Uuid, T>, ledger: Ledger<T>, entries: seq<(Uuid, T)>, now: map<Uuid, T>,
                           absent: T)
    requires Alike(client, ledger.reported, absent) && States(entries, ledger.reported, ledger.changed, now, absent)
    requires forall node :: node !in ledger.changed ==> Entry(ledger.reported, node, absent) == Entry(now, node, absent)
    ensures Alike(Told(client, entries, absent), now, absent)
  {
    forall node ensures Entry(Told(client, entries, absent), node, absent) == Entry(now, node, absent) {
      ToldHolds(client, entries, absent, node);
      if Listed(entries, node) {
        var i :| 0 <= i < |entries| && entries[i].0 == node;
      }
    }
  }

  // What a trace and its client make of one tick.

  /** A ledger follows what a client knows, but for the nodes restarted, and
      lists every node that may differ from the previous tick. */
  ghost predicate Follows<T(!new)>(ledger: Ledger<T>, restarted: set<Uuid>, client: map<Uuid, T>,
                                   previous: map<Uuid, T>, absent: T)
  {
    && Alike(client - restarted, ledger.reported, absent)
    && (forall node :: node !in ledger.changed ==>
          Entry(ledger.reported, node, absent) == Entry(previous, node, absent))
    && restarted <= ledger.changed
  }

  ghost predicate Covers<T(!new)>(delta: set<Uuid>, before: map<Uuid, T>, after: map<Uuid, T>, absent: T) {
    forall node :: node !in delta ==> Entry(before, node, absent) == Entry(after, node, absent)
  }

  /** The entries are the nodes that are not as the client knows them, and no others. */
  ghost predicate Exact<T(!new)>(entries: seq<(Uuid, T)>, client: map<Uuid, T>, now: map<Uuid, T>, absent: T) {
    forall node :: Listed(entries, node) <==> Entry(client, node, absent) != Entry(now, node, absent)
  }

  lemma FollowsOn<T(!new)>(ledger: Ledger<T>, restarted: set<Uuid>, client: map<Uuid, T>, previous: map<Uuid, T>,
                           now: map<Uuid, T>, delta: set<Uuid>, absent: T)
    requires Follows(ledger, restarted, client, previous, absent) && Covers(delta, previous, now, absent)
    ensures Follows(Ledger(ledger.reported, ledger.changed + delta), restarted, client, now, absent)
  {
  }

  lemma DrainTells<T(!new)>(ledger: Ledger<T>, restarted: set<Uuid>, client: map<Uuid, T>, now: map<Uuid, T>, absent: T,
                            entries: seq<(Uuid, T)>, after: Ledger<T>)
    requires Follows(ledger, restarted, client, now, absent)
    requires States(entries, ledger.reported, ledger.changed, now, absent)
    requires Drained(after.reported, ledger.reported, ledger.changed, now, absent)
    ensures Alike(Told(client - restarted, entries, absent), now, absent)
    ensures Alike(after.reported, now, absent)
    ensures Exact(entries, client - restarted, now, absent)
  {
    ToldIsNow(client - restarted, ledger, entries, now, absent);
  }

  lemma QuietTells<T(!new)>(client: map<Uuid, T>, now: map<Uuid, T>, absent: T)
    requires Alike(Told(client - {}, [], absent), now, absent)
    ensures Alike(client, now, absent)
  {
    assert client - {} == client;
  }

  lemma NewFollows<T(!new)>(ledger: Ledger<T>, client: map<Uuid, T>, now: map<Uuid, T>, absent: T)
    requires ledger.changed == {} && Alike(ledger.reported, now, absent) && Alike(client, now, absent)
    ensures Follows(ledger, {}, client, now, absent)
  {
    assert client - {} == client;
  }

  /** A restart forgets what was reported of the nodes, which the client has yet to hear. */
  lemma RestartFollows<T(!new)>(ledger: Ledger<T>, restarted: set<Uuid>, client: map<Uuid, T>, previous: map<Uuid, T>,
                                absent: T, nodes: set<Uuid>)
    requires Follows(ledger, restarted, client, previous, absent)
    ensures Follows(Ledger(ledger.reported - nodes, ledger.changed + nodes), restarted + nodes, client, previous,
                    absent)
  {
    var forgotten := ledger.reported - nodes;
    forall node ensures Entry(client - (restarted + nodes), node, absent) == Entry(forgotten, node, absent) {
      assert Entry(client - restarted, node, absent) == Entry(ledger.reported, node, absent);
    }
  }

  // Traces.

  datatype Trace = Trace(
    task: Uuid,
    interval: Option<nat>,
    /** Whether its first report is written. */
    started: bool,
    reportedAt: Option<nat>,
    status: Ledger<NodeStatus>,
    activity: Ledger<Activity>,
    /** The nodes restarted since the last report, each listed once as the report is made. */
    restarted: set<Uuid>,
    lastTick: Option<nat>,
    revision: Option<nat>)

  datatype Report = Report(
    tick: nat,
    since: Option<nat>,
    status: seq<(Uuid, NodeStatus)>,
    activity: seq<(Uuid, Activity)>,
    restarted: set<Uuid>,
    revision: Option<nat>)

  predicate StatesNothing(r: Report) {
    r.status == [] && r.activity == [] && r.restarted == {} && r.revision.None?
  }

  function Unreported<T>(): Ledger<T> {
    Ledger(map[], {})
  }

  function NewTrace(task: Uuid, interval: Option<nat>): Trace {
    Trace(task, interval, false, None, Unreported(), Unreported(), {}, None, None)
  }

  /** What a client knows: it starts anew on a report since none, forgets the
      restarted nodes, and takes the entries. */
  datatype Client = Client(status: map<Uuid, NodeStatus>, activity: map<Uuid, Activity>, revision: Option<nat>)

  const KNOWS_NOTHING := Client(map[], map[], None)

  /** What a client keeps when it hears a report. */
  function Kept(c: Client, r: Report): Client {
    if r.since.None? then KNOWS_NOTHING
    else c.(status := c.status - r.restarted, activity := c.activity - r.restarted)
  }

  function Hears(c: Client, r: Report): Client {
    var kept := Kept(c, r);
    Client(Told(kept.status, r.status, NotReached), Told(kept.activity, r.activity, Idle),
           if r.revision.Some? then r.revision else kept.revision)
  }

  /** What a client that heard the reports, and nothing else, knows. */
  function Learnt(heard: seq<Report>): Client {
    if heard == [] then KNOWS_NOTHING else Hears(Learnt(heard[..|heard| - 1]), heard[|heard| - 1])
  }

  /** The client knows a tick: its statuses, its activity, the revision. */
  ghost predicate Knows(c: Client, statuses: map<Uuid, NodeStatus>, activity: map<Uuid, Activity>, revision: nat) {
    Alike(c.status, statuses, NotReached) && Alike(c.activity, activity, Idle) && c.revision == Some(revision)
  }

  /** What ties a trace to the client that hears it. */
  ghost predicate InStep(t: Trace, heard: seq<Report>, statuses: map<Uuid, NodeStatus>, activity: map<Uuid, Activity>) {
    if t.started then
      && heard != [] && t.lastTick == Some(heard[|heard| - 1].tick)
      && t.revision.Some? && Learnt(heard).revision == t.revision
      && Follows(t.status, t.restarted, Learnt(heard).status, statuses, NotReached)
      && Follows(t.activity, t.restarted, Learnt(heard).activity, activity, Idle)
    else t == NewTrace(t.task, t.interval)
  }

  /** The trace takes what the tick changed; one that has not started, all it did. */
  function Noting(t: Trace, statusDelta: set<Uuid>, activityDelta: set<Uuid>, statuses: map<Uuid, NodeStatus>,
                  activity: map<Uuid, Activity>): Trace
  {
    if t.started then
      t.(status := Ledger(t.status.reported, t.status.changed + statusDelta),
         activity := Ledger(t.activity.reported, t.activity.changed + activityDelta))
    else
      t.(status := Ledger(t.status.reported, t.status.changed + statuses.Keys),
         activity := Ledger(t.activity.reported, t.activity.changed + activity.Keys))
  }

  predicate Due(t: Trace, now: Option<nat>) {
    t.interval.Some? && t.reportedAt.Some? && now.Some? ==>
      (if t.reportedAt.value <= now.value then now.value - t.reportedAt.value else 0) >= t.interval.value
  }

  /** Both ledgers follow the client into the tick. */
  ghost predicate Abreast(t: Trace, c: Client, statuses: map<Uuid, NodeStatus>, activity: map<Uuid, Activity>) {
    && Follows(t.status, t.restarted, c.status, statuses, NotReached)
    && Follows(t.activity, t.restarted, c.activity, activity, Idle)
  }

  /** What the client of a trace knows before it hears the next report. */
  function Awaiting(t: Trace, heard: seq<Report>): Client {
    if t.started then Learnt(heard) else KNOWS_NOTHING
  }

  lemma NotingFollows(t: Trace, heard: seq<Report>, before: map<Uuid, NodeStatus>, did: map<Uuid, Activity>,
                      statusDelta: set<Uuid>, activityDelta: set<Uuid>,
                      statuses: map<Uuid, NodeStatus>, activity: map<Uuid, Activity>)
    requires InStep(t, heard, before, did)
    requires Covers(statusDelta, before, statuses, NotReached) && Covers(activityDelta, did, activity, Idle)
    ensures Abreast(Noting(t, statusDelta, activityDelta, statuses, activity), Awaiting(t, heard), statuses, activity)
  {
    if t.started {
      FollowsOn(t.status, t.restarted, Learnt(heard).status, before, statuses, statusDelta, NotReached);
      FollowsOn(t.activity, t.restarted, Learnt(heard).activity, did, activity, activityDelta, Idle);
    }
  }

  /** The report states what changed, and leaves the trace with what is. */
  ghost predicate Reports(t: Trace, statuses: map<Uuid, NodeStatus>, activity: map<Uuid, Activity>, after: Trace,
                          r: Report)
  {
    && after == t.(status := Ledger(after.status.reported, {}), activity := Ledger(after.activity.reported, {}),
                   restarted := {})
    && r.since == t.lastTick && r.restarted == t.restarted
    && States(r.status, t.status.reported, t.status.changed, statuses, NotReached)
    && States(r.activity, t.activity.reported, t.activity.changed, activity, Idle)
    && Drained(after.status.reported, t.status.reported, t.status.changed, statuses, NotReached)
    && Drained(after.activity.reported, t.activity.reported, t.activity.changed, activity, Idle)
  }

  method MakeReport(t: Trace, tick: nat, statuses: map<Uuid, NodeStatus>, activity: map<Uuid, Activity>)
    returns (after: Trace, r: Report)
    ensures Reports(t, statuses, activity, after, r) && r.tick == tick && r.revision.None?
  {
    var status, statusEntries := Drain(t.status, statuses, NotReached);
    var did, activityEntries := Drain(t.activity, activity, Idle);
    after := t.(status := status, activity := did, restarted := {});
    r := Report(tick, t.lastTick, statusEntries, activityEntries, t.restarted, None);
  }

  function Starting(t: Trace, tick: nat, revision: nat, now: Option<nat>): Trace {
    t.(started := true, reportedAt := now, lastTick := Some(tick), revision := Some(revision))
  }

  /** The report tells exactly what the client does not know. */
  ghost predicate TellsExactly(c: Client, r: Report, statuses: map<Uuid, NodeStatus>, activity: map<Uuid, Activity>) {
    && Exact(r.status, Kept(c, r).status, statuses, NotReached)
    && Exact(r.activity, Kept(c, r).activity, activity, Idle)
  }

  /** The revision a report states: none when the last one stated it. */
  function Stating(t: Trace, made: Report, revision: nat): Report {
    made.(revision := if t.revision != Some(revision) then Some(revision) else None)
  }

  /** A client that hears the report knows the tick, and the trace stays in step with it. */
  lemma ReportTells(t: Trace, heard: seq<Report>, statuses: map<Uuid, NodeStatus>, activity: map<Uuid, Activity>,
                    after: Trace, made: Report, revision: nat, now: Option<nat>)
    requires t.started ==> t.lastTick.Some? && Learnt(heard).revision == t.revision
    requires !t.started ==> t.lastTick.None? && t.restarted == {} && t.revision.None?
    requires Abreast(t, Awaiting(t, heard), statuses, activity)
    requires Reports(t, statuses, activity, after, made)
    ensures var r := Stating(t, made, revision);
            && Knows(Learnt(heard + [r]), statuses, activity, revision)
            && TellsExactly(Learnt(heard), r, statuses, activity)
            && InStep(Starting(after, r.tick, revision, now), heard + [r], statuses, activity)
  {
    var r := Stating(t, made, revision);
    var more, c := heard + [r], Awaiting(t, heard);
    assert more[..|more| - 1] == heard && Learnt(more) == Hears(Learnt(heard), r);
    assert c.status - {} == c.status && c.activity - {} == c.activity;
    assert Kept(Learnt(heard), r).status == c.status - t.restarted;
    assert Kept(Learnt(heard), r).activity == c.activity - t.restarted;
    DrainTells(t.status, t.restarted, c.status, statuses, NotReached, r.status, after.status);
    DrainTells(t.activity, t.restarted, c.activity, activity, Idle, r.activity, after.activity);
    NewFollows(after.status, Learnt(more).status, statuses, NotReached);
    NewFollows(after.activity, Learnt(more).activity, activity, Idle);
  }

  /** When the report states nothing, the client knows the tick already. */
  lemma SilenceTells(t: Trace, heard: seq<Report>, statuses: map<Uuid, NodeStatus>, activity: map<Uuid, Activity>,
                     after: Trace, made: Report, revision: nat)
    requires t.started && heard != [] && t.lastTick == Some(heard[|heard| - 1].tick)
    requires Learnt(heard).revision == t.revision == Some(revision)
    requires Abreast(t, Learnt(heard), statuses, activity)
    requires Reports(t, statuses, activity, after, made) && made.revision.None? && StatesNothing(made)
    ensures Knows(Learnt(heard), statuses, activity, revision)
    ensures InStep(after, heard, statuses, activity)
  {
    var c := Learnt(heard);
    DrainTells(t.status, t.restarted, c.status, statuses, NotReached, made.status, after.status);
    DrainTells(t.activity, t.restarted, c.activity, activity, Idle, made.activity, after.activity);
    QuietTells(c.status, statuses, NotReached);
    QuietTells(c.activity, activity, Idle);
    NewFollows(after.status, c.status, statuses, NotReached);
    NewFollows(after.activity, c.activity, activity, Idle);
  }

  /** What becomes of a report that is published: heard; refused, and not
      heard; or refused after a first feedback key took it. */
  datatype Outcome = Written | Refused | HeardAndRefused

  /** A report is of its tick, follows the one heard before it, and tells exactly what the client does not know. */
  ghost predicate Proper(heard: seq<Report>, r: Report, tick: nat, statuses: map<Uuid, NodeStatus>,
                         activity: map<Uuid, Activity>)
  {
    && r.tick == tick
    && (r.since.Some? ==> heard != [] && r.since.value == heard[|heard| - 1].tick && !StatesNothing(r))
    && TellsExactly(Learnt(heard), r, statuses, activity)
  }

  /** What one tick makes of a trace and of what its client heard. */
  ghost predicate Turned(t: Trace, heard: seq<Report>, after: Trace, hears: seq<Report>, due: bool, outcome: Outcome,
                         tick: nat, revision: nat, statuses: map<Uuid, NodeStatus>, activity: map<Uuid, Activity>)
  {
    && after.task == t.task && after.interval == t.interval
    && InStep(after, hears, statuses, activity)
    && (hears == heard
        || (due && |hears| == |heard| + 1 && hears[..|heard|] == heard
            && Proper(heard, hears[|heard|], tick, statuses, activity) && hears[|heard|].restarted == t.restarted))
    && (due && t.restarted != {} && !outcome.Refused? ==> |hears| > |heard|)
    && (due && outcome.Written? ==> after.started)
    && (due && after.started ==> Knows(Learnt(hears), statuses, activity, revision))
    && (!due ==> after.started == t.started && after.restarted == t.restarted)
  }

  /**
   A trace keeps its pace: it has its turn at every tick if it has no interval,
   if it reported at no known time or there is no clock, and else once the
   clock is an interval past its last report.  Its client then knows the tick
   if the report is written, and hears nothing out of turn; the trace reported
   at the tick's clock exactly if it wrote a report.
   */
  ghost predicate KeepsPace(t: Trace, heard: seq<Report>, after: Trace, hears: seq<Report>, now: Option<nat>,
                            outcome: Outcome, revision: nat, statuses: map<Uuid, NodeStatus>,
                            activity: map<Uuid, Activity>)
  {
    var turn := t.interval == None || t.reportedAt == None || now == None || t.interval == Some(0)
                || t.reportedAt.value + t.interval.value <= now.value;
    && (turn && outcome == Written ==> after.started && Knows(Learnt(hears), statuses, activity, revision))
    && (!turn ==> hears == heard && after.started == t.started)
    && after.reportedAt == if !after.started then None else if |hears| > |heard| then now else t.reportedAt
  }

  lemma TurnedInStep(t: Trace, heard: seq<Report>, after: Trace, hears: seq<Report>, due: bool, outcome: Outcome,
                     tick: nat, revision: nat, statuses: map<Uuid, NodeStatus>, activity: map<Uuid, Activity>)
    requires Turned(t, heard, after, hears, due, outcome, tick, revision, statuses, activity)
    ensures InStep(after, hears, statuses, activity)
  {
  }

  /** What a started trace that has nothing to state makes of the tick. */
  lemma SilentTurn(t: Trace, heard: seq<Report>, after: Trace, made: Report, outcome: Outcome, tick: nat, revision: nat,
                   statuses: map<Uuid, NodeStatus>, activity: map<Uuid, Activity>)
    requires t.started && heard != [] && t.lastTick == Some(heard[|heard| - 1].tick)
    requires Learnt(heard).revision == t.revision == Some(revision)
    requires Abreast(t, Learnt(heard), statuses, activity)
    requires Reports(t, statuses, activity, after, made) && made.revision.None? && StatesNothing(made)
    ensures Turned(t, heard, after, heard, true, outcome, tick, revision, statuses, activity)
  {
    SilenceTells(t, heard, statuses, activity, after, made, revision);
  }

  /** Publishes the report of a due trace. */
  method Publish(t: Trace, ghost heard: seq<Report>, reported: Trace, made: Report, tick: nat, revision: nat,
                 ghost statuses: map<Uuid, NodeStatus>, ghost activity: map<Uuid, Activity>,
                 now: Option<nat>, outcome: Outcome)
    returns (after: Trace, ghost hears: seq<Report>)
    requires t.started ==> heard != [] && t.lastTick == Some(heard[|heard| - 1].tick)
                           && Learnt(heard).revision == t.revision
    requires !t.started ==> t.lastTick.None? && t.restarted == {} && t.revision.None?
    requires Abreast(t, Awaiting(t, heard), statuses, activity)
    requires Reports(t, statuses, activity, reported, made) && made.tick == tick
    requires t.started ==> !StatesNothing(Stating(t, made, revision))
    ensures Turned(t, heard, after, hears, true, outcome, tick, revision, statuses, activity)
    ensures after.started <==> outcome.Written?
    ensures after.reportedAt == (if after.started then now else None) && (after.started ==> |hears| > |heard|)
  {
    ReportTells(t, heard, statuses, activity, reported, made, revision, now);
    hears := if outcome.Refused? then heard else heard + [Stating(t, made, revision)];
    after := if outcome.Written? then Starting(reported, tick, revision, now)
             else NewTrace(reported.task, reported.interval);
  }

  /** One trace's turn at a tick. */
  method TakeTurn(was: Trace, ghost heard: seq<Report>, ghost before: map<Uuid, NodeStatus>,
                  ghost did: map<Uuid, Activity>, statusDelta: set<Uuid>, activityDelta: set<Uuid>,
                  statuses: map<Uuid, NodeStatus>, activity: map<Uuid, Activity>,
                  tick: nat, revision: nat, now: Option<nat>, outcome: Outcome)
    returns (after: Trace, ghost hears: seq<Report>, failed: bool)
    requires InStep(was, heard, before, did)
    requires Covers(statusDelta, before, statuses, NotReached) && Covers(activityDelta, did, activity, Idle)
    ensures Turned(was, heard, after, hears, Due(was, now), outcome, tick, revision, statuses, activity)
    ensures KeepsPace(was, heard, after, hears, now, outcome, revision, statuses, activity)
    ensures failed <==> Due(was, now) && !after.started
  {
    NotingFollows(was, heard, before, did, statusDelta, activityDelta, statuses, activity);
    var t := Noting(was, statusDelta, activityDelta, statuses, activity);
    hears, failed := heard, false;
    if !Due(t, now) {
      return t, hears, failed;
    }
    var made: Report;
    after, made := MakeReport(t, tick, statuses, activity);
    if t.started && StatesNothing(Stating(t, made, revision)) {
      SilentTurn(t, heard, after, made, outcome, tick, revision, statuses, activity);
    } else {
      after, hears := Publish(t, heard, after, made, tick, revision, statuses, activity, now, outcome);
      failed := !outcome.Written?;
    }
  }

  class Traces {
    var traces: seq<Trace>
    /** What the previous tick reached, and what it read. */
    var statuses: map<Uuid, NodeStatus>
    var activity: map<Uuid, Activity>
    /** What the client of each trace heard. */
    ghost var heard: seq<seq<Report>>

    ghost predicate Valid()
      reads this
    {
      && |heard| == |traces|
      && forall i :: 0 <= i < |traces| ==> InStep(traces[i], heard[i], statuses, activity)
    }

    constructor ()
      ensures Valid() && traces == []
    {
      traces, statuses, activity, heard := [], map[], map[], [];
    }

    method Start(task: Uuid, interval: Option<nat>)
      requires Valid()
      modifies this
      ensures Valid() && traces == old(traces) + [NewTrace(task, interval)] && heard == old(heard) + [[]]
    {
      traces, heard := traces + [NewTrace(task, interval)], heard + [[]];
    }

    /** Ends the first trace of that id; the others go on as they were. */
    method Halt(task: Uuid) returns (at: Option<nat>)
      requires Valid()
      modifies this
      ensures Valid()
      ensures at.None? ==> (forall i :: 0 <= i < |traces| ==> traces[i].task != task)
                           && traces == old(traces) && heard == old(heard)
      ensures at.Some? ==> at.value < |old(traces)| && old(traces)[at.value].task == task
      ensures at.Some? ==> traces == old(traces)[..at.value] + old(traces)[at.value + 1..]
      ensures at.Some? ==> heard == old(heard)[..at.value] + old(heard)[at.value + 1..]
    {
      var i := 0;
      while i < |traces| && traces[i].task != task
        invariant i <= |traces| && forall j :: 0 <= j < i ==> traces[j].task != task
      {
        i := i + 1;
      }
      if i == |traces| {
        return None;
      }
      traces, heard := traces[..i] + traces[i + 1..], heard[..i] + heard[i + 1..];
      if traces == [] {
        statuses, activity := map[], map[];
      }
      at := Some(i);
    }

    /** The nodes start afresh, for each trace that has reported. */
    method Restart(nodes: set<Uuid>)
      requires Valid()
      modifies this`traces
      ensures Valid() && |traces| == |old(traces)|
      ensures forall i :: 0 <= i < |traces| ==> traces[i] == Restarting(old(traces)[i], nodes)
    {
      var all: seq<Trace> := [];
      for i := 0 to |traces|
        invariant traces == old(traces) && |all| == i
        invariant forall j :: 0 <= j < i ==>
                    all[j] == Restarting(traces[j], nodes) && InStep(all[j], heard[j], statuses, activity)
      {
        RestartingInStep(traces[i], heard[i], statuses, activity, nodes);
        all := all + [Restarting(traces[i], nodes)];
      }
      traces := all;
    }

    /** One tick as the traces see it: each that is due reports to its client, unless it has nothing to tell. */
    method Report(tick: nat, revision: nat, record: seq<(Uuid, NodeStatus)>, did: seq<(Uuid, Activity)>,
                  clock: Option<nat>, outcomes: seq<Outcome>)
      returns (ok: bool)
      requires Valid() && |outcomes| == |traces|
      modifies this
      ensures Valid() && |traces| == |old(traces)|
      ensures statuses == Recorded(record) && activity == Recorded(did)
      ensures var now := if AnyPaced(old(traces)) then clock else None;
              && (forall i :: 0 <= i < |traces| ==>
                    Turned(old(traces)[i], old(heard)[i], traces[i], heard[i], Due(old(traces)[i], now), outcomes[i],
                           tick, revision, statuses, activity))
              && (ok <==> forall i :: 0 <= i < |traces| && Due(old(traces)[i], now) ==> traces[i].started)
      ensures var paced := exists i :: 0 <= i < |traces| && old(traces)[i].interval != None;
              forall i :: 0 <= i < |traces| ==>
                KeepsPace(old(traces)[i], old(heard)[i], traces[i], heard[i], if paced then clock else None,
                          outcomes[i], revision, statuses, activity)
    {
      hide Turned, KeepsPace, Due, InStep, Recorded;
      var reached := Collect(record);
      var done := Collect(did);
      var statusDelta := Changes(statuses, reached);
      var activityDelta := Changes(activity, done);
      var now := if AnyPaced(traces) then clock else None;
      var all: seq<Trace> := [];
      ghost var hear: seq<seq<Report>> := [];
      ok := true;
      for i := 0 to |traces|
        invariant traces == old(traces) && heard == old(heard) && statuses == old(statuses) && activity == old(activity)
        invariant |all| == |hear| == i
        invariant forall j :: 0 <= j < i ==>
                    Turned(traces[j], heard[j], all[j], hear[j], Due(traces[j], now), outcomes[j], tick, revision,
                           reached, done)
        invariant forall j :: 0 <= j < i ==>
                    KeepsPace(traces[j], heard[j], all[j], hear[j], now, outcomes[j], revision, reached, done)
        invariant ok <==> forall j :: 0 <= j < i && Due(traces[j], now) ==> all[j].started
      {
        var after, hears, failed := TakeTurn(traces[i], heard[i], statuses, activity, statusDelta, activityDelta,
                                             reached, done, tick, revision, now, outcomes[i]);
        all, hear := all + [after], hear + [hears];
        if failed {
          ok := false;
        }
      }
      forall i | 0 <= i < |all| ensures InStep(all[i], hear[i], reached, done) {
        TurnedInStep(traces[i], heard[i], all[i], hear[i], Due(traces[i], now), outcomes[i], tick, revision, reached,
                     done);
      }
      traces, heard, statuses, activity := all, hear, reached, done;
    }
  }

  predicate AnyPaced(traces: seq<Trace>) {
    exists i :: 0 <= i < |traces| && traces[i].interval.Some?
  }

  function Restarting(t: Trace, nodes: set<Uuid>): Trace {
    if !t.started then t
    else t.(status := Ledger(t.status.reported - nodes, t.status.changed + nodes),
            activity := Ledger(t.activity.reported - nodes, t.activity.changed + nodes),
            restarted := t.restarted + nodes)
  }

  lemma RestartingInStep(t: Trace, heard: seq<Report>, statuses: map<Uuid, NodeStatus>, activity: map<Uuid, Activity>,
                         nodes: set<Uuid>)
    requires InStep(t, heard, statuses, activity)
    ensures InStep(Restarting(t, nodes), heard, statuses, activity)
  {
    if t.started {
      RestartFollows(t.status, t.restarted, Learnt(heard).status, statuses, NotReached, nodes);
      RestartFollows(t.activity, t.restarted, Learnt(heard).activity, activity, Idle, nodes);
    }
  }
}
