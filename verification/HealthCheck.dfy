/**
  Health check (healthcheck/health_check.go): service statuses, their inverse index by
  status, and the server status read off two cardinalities.
 */
module HealthCheck {
  type Status = int

  const Unknown: Status := 0
  const Serving: Status := 1
  const NotServing: Status := 2

  predicate Known(s: Status) {
    s == Unknown || s == Serving || s == NotServing
  }

  type Index = map<Status, set<string>>

  /** What happened to the services, in order. */
  datatype Event = Registered(name: string) | Updated(name: string, status: Status) | Unregistered(name: string)

  function StatusStep(before: map<string, Status>, e: Event): map<string, Status> {
    match e
    case Registered(name) => before[name := Unknown]
    case Updated(name, status) => before[name := status]
    case Unregistered(name) => before - {name}
  }

  /** The statuses a run leaves behind. An update names a service again even after it was unregistered. */
  function StatusesAfter(log: seq<Event>): map<string, Status> {
    if log == [] then map[] else StatusStep(StatusesAfter(log[..|log| - 1]), log[|log| - 1])
  }

  /** The event leaves the service with this status: a registered one starts as Unknown. */
  predicate Leaves(e: Event, name: string, status: Status) {
    (e == Registered(name) && status == 0) || e == Updated(name, status)
  }

  predicate LastLeaving(log: seq<Event>, name: string, status: Status, i: nat) {
    i < |log| && Leaves(log[i], name, status) && forall j | i < j < |log| :: log[j].name != name
  }

  /**
    A service has a status after a run exactly if some event left it with that and no later
    event is about it; so a service whose last event is its removal is gone.
   */
  lemma {:induction false} StatusIsLatest(log: seq<Event>, name: string, status: Status)
    ensures name in StatusesAfter(log) && StatusesAfter(log)[name] == status <==>
            exists i :: LastLeaving(log, name, status, i)
  {
    if log != [] {
      var n := |log| - 1;
      var front := log[..n];
      StatusIsLatest(front, name, status);
      forall i: nat
        ensures log[n].name == name ==>
          (LastLeaving(log, name, status, i) <==> i == n && Leaves(log[n], name, status))
        ensures log[n].name != name ==> (LastLeaving(log, name, status, i) <==> LastLeaving(front, name, status, i))
      {
        assert forall j | 0 <= j < n :: front[j] == log[j];
      }
      if log[n].name == name && Leaves(log[n], name, status) {
        assert LastLeaving(log, name, status, n);
      }
    }
  }

  lemma StatusesAfterOneMore(log: seq<Event>, e: Event)
    ensures StatusesAfter(log + [e]) == StatusStep(StatusesAfter(log), e)
  {
    assert (log + [e])[..|log|] == log;
  }

  /** The index has one set per known status, and they are exactly the inverse of the statuses. */
  ghost predicate Inverse(statuses: map<string, Status>, index: Index) {
    && index.Keys == {Unknown, Serving, NotServing}
    && (forall n | n in statuses :: Known(statuses[n]))
    && forall n, s | s in index :: n in index[s] <==> n in statuses && statuses[n] == s
  }

  /** What the status of a server means, in terms of its services. */
  function ServerStatus(statuses: map<string, Status>): Status {
    if forall n | n in statuses :: statuses[n] == Serving then Serving
    else if exists n | n in statuses :: statuses[n] == Unknown then Unknown
    else NotServing
  }

  /** Under the inverse, comparing sizes answers the universal question. */
  lemma SizesDecide(statuses: map<string, Status>, index: Index)
    requires Inverse(statuses, index)
    ensures |index[Serving]| == |statuses| <==> forall n | n in statuses :: statuses[n] == Serving
    ensures |index[Unknown]| != 0 <==> exists n | n in statuses :: statuses[n] == Unknown
  {
    var serving := index[Serving];
    assert serving <= statuses.Keys;
    if forall n | n in statuses :: statuses[n] == Serving {
      assert serving == statuses.Keys;
    } else {
      var n :| n in statuses && statuses[n] != Serving;
      SmallerSubset(serving, statuses.Keys, n);
    }
    if n :| n in index[Unknown] {
      assert n in statuses && statuses[n] == Unknown;
    }
  }

  /** The status a Go map read yields for a name: the zero value, Unknown, if it is absent. */
  function StatusOf(statuses: map<string, Status>, name: string): Status {
    if name in statuses then statuses[name] else Unknown
  }

  /** `delete(index[statuses[name]], name)`; deleting from an absent set does nothing. */
  function Dropped(statuses: map<string, Status>, index: Index, name: string): Index {
    var was := StatusOf(statuses, name);
    if was in index then index[was := index[was] - {name}] else index
  }

  /** Dropping a name from the index inverts the statuses without it, and nothing else. */
  lemma DropInverts(statuses: map<string, Status>, index: Index, name: string)
    requires Inverse(statuses, index)
    ensures Inverse(statuses - {name}, Dropped(statuses, index, name))
    ensures Inverse(statuses, Dropped(statuses, index, name)) <==> name !in statuses
  {
    var index' := Dropped(statuses, index, name);
    if name in statuses {
      assert name !in index'[statuses[name]];
    }
  }

  lemma AddInverts(statuses: map<string, Status>, index: Index, name: string, status: Status)
    requires Inverse(statuses, index) && name !in statuses && Known(status)
    ensures Inverse(statuses[name := status], index[status := index[status] + {name}])
  {
  }

  lemma SmallerSubset(a: set<string>, b: set<string>, n: string)
    requires a <= b && n in b && n !in a
    ensures |a| < |b|
  {
    assert b == a + (b - a) && |b| == |a| + |b - a|;
    assert n in b - a;
  }

  /** One call per watcher, in order. */
  function Calls(watchers: seq<int>, status: Status): (calls: seq<(int, Status)>)
    ensures |calls| == |watchers|
  {
    seq(|watchers|, i requires 0 <= i < |watchers| => (watchers[i], status))
  }

  class HealthCheck {
    const unregisteredServiceStatus: Status
    var serviceStatuses: map<string, Status>
    var statusServices: Index
    var serviceWatchers: map<string, seq<int>>
    var notified: seq<(int, Status)>
    ghost var log: seq<Event>

    ghost predicate Valid()
      reads this
    {
      Inverse(serviceStatuses, statusServices) && serviceStatuses == StatusesAfter(log)
    }

    constructor (unregistered: Status)
      ensures Valid() && log == [] && notified == [] && serviceWatchers == map[]
      ensures unregisteredServiceStatus == unregistered
    {
      unregisteredServiceStatus := unregistered;
      serviceStatuses := map[];
      statusServices := map[Unknown := {}, Serving := {}, NotServing := {}];
      serviceWatchers, notified, log := map[], [], [];
    }

    function Watchers(name: string): seq<int>
      reads this
    {
      if name in serviceWatchers then serviceWatchers[name] else []
    }

    /** Calls every watcher of a service, in the order they were added. */
    method Notify(name: string, status: Status)
      modifies this`notified
      ensures notified == old(notified) + Calls(Watchers(name), status)
    {
      var ws := Watchers(name);
      ghost var all := Calls(ws, status);
      for k := 0 to |ws|
        invariant notified == old(notified) + all[..k]
      {
        notified := notified + [(ws[k], status)];
      }
      assert all[..|ws|] == all;
    }

    /** Register: refused if the name is known, otherwise the service starts as Unknown. */
    method Register(name: string) returns (ok: bool)
      requires Valid()
      modifies this
      ensures Valid()
      ensures ok <==> name !in old(serviceStatuses)
      ensures log == if ok then old(log) + [Registered(name)] else old(log)
      ensures serviceWatchers == old(serviceWatchers)
      ensures notified == old(notified) +
        (if ok then Calls(old(Watchers(name)), Unknown) else [])
    {
      if name in serviceStatuses {
        assert notified == notified + [];
        return false;
      }
      StatusesAfterOneMore(log, Registered(name));
      AddInverts(serviceStatuses, statusServices, name, Unknown);
      serviceStatuses := serviceStatuses[name := Unknown];
      statusServices := statusServices[Unknown := statusServices[Unknown] + {name}];
      log := log + [Registered(name)];
      Notify(name, Unknown);
      return true;
    }

    /**
      The closure Register returns; it may be called at any later time, also after
      Unregister. A status outside the index makes the write fail after the name has
      already left the index.
     */
    method Update(name: string, status: Status) returns (failed: bool)
      requires Valid()
      modifies this
      ensures failed <==> !Known(status)
      ensures !failed ==>
        && Valid() && log == old(log) + [Updated(name, status)]
        && serviceStatuses == old(serviceStatuses)[name := status]
        && notified == old(notified) + Calls(old(Watchers(name)), status)
      ensures failed ==>
        && serviceStatuses == old(serviceStatuses) && notified == old(notified) && log == old(log)
        && (Valid() <==> name !in serviceStatuses)
      ensures serviceWatchers == old(serviceWatchers)
    {
      StatusesAfterOneMore(log, Updated(name, status));
      DropInverts(serviceStatuses, statusServices, name);
      statusServices := Dropped(serviceStatuses, statusServices, name);
      if status !in statusServices {
        return true;
      }
      AddInverts(serviceStatuses - {name}, statusServices, name, status);
      assert (serviceStatuses - {name})[name := status] == serviceStatuses[name := status];
      statusServices := statusServices[status := statusServices[status] + {name}];
      serviceStatuses := serviceStatuses[name := status];
      log := log + [Updated(name, status)];
      Notify(name, status);
      return false;
    }

    method Unregister(name: string)
      requires Valid()
      modifies this
      ensures Valid() && log == old(log) + [Unregistered(name)]
      ensures serviceWatchers == old(serviceWatchers) && notified == old(notified)
    {
      StatusesAfterOneMore(log, Unregistered(name));
      DropInverts(serviceStatuses, statusServices, name);
      statusServices := Dropped(serviceStatuses, statusServices, name);
      serviceStatuses := serviceStatuses - {name};
      log := log + [Unregistered(name)];
    }

    method CheckService(name: string) returns (s: Status)
      requires Valid()
      ensures s == if name in StatusesAfter(log) then StatusesAfter(log)[name] else unregisteredServiceStatus
    {
      if name !in serviceStatuses {
        return unregisteredServiceStatus;
      }
      return serviceStatuses[name];
    }

    /** Two comparisons of sizes decide what the statuses of all services mean together. */
    method CheckServer() returns (s: Status)
      requires Valid()
      ensures s == ServerStatus(StatusesAfter(log))
    {
      SizesDecide(serviceStatuses, statusServices);
      if |statusServices[Serving]| == |serviceStatuses| {
        return Serving;
      }
      if |statusServices[Unknown]| != 0 {
        return Unknown;
      }
      return NotServing;
    }

    method Watch(name: string, watcher: int)
      requires Valid()
      modifies this
      ensures Valid() && log == old(log) && notified == old(notified)
      ensures serviceWatchers == old(serviceWatchers)[name := old(Watchers(name)) + [watcher]]
    {
      serviceWatchers := serviceWatchers[name := Watchers(name) + [watcher]];
    }
  }

  /** A service unregistered and updated late counts again, as the server status shows. */
  lemma LateUpdateCounts(log: seq<Event>, name: string, status: Status)
    ensures var after := StatusesAfter(log + [Unregistered(name), Updated(name, status)]);
            && name in after && after[name] == status
            && (status == Unknown ==> ServerStatus(after) == Unknown)
  {
    assert log + [Unregistered(name), Updated(name, status)] == (log + [Unregistered(name)]) + [Updated(name, status)];
    StatusesAfterOneMore(log + [Unregistered(name)], Updated(name, status));
  }
}
