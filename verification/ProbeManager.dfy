/** The probe manager's methods, each run under its lock (ami/native/prober/prober_manager.go). */
module ProbeManager {
  import opened Model
  import opened Keys
  import opened Prober
  import opened Registry

  // what AddApp reads of an application: the liveness probe of its first service, and whether that has a startup
  // probe; without services there is neither
  datatype ProbedApp = ProbedApp(name: string, version: string, liveness: Option<ProbeSpec>, startup: bool) {
    predicate Probed() {
      liveness.Some? || startup
    }

    // liveness comes first
    function Key(): ProbeKey {
      ProbeKey(name, version, liveness.None?)
    }
  }

  class Manager {
    var workers: map<ProbeKey, Worker>
    var status: map<ProbeKey, int>

    /** Every worker sits under its own key, so no two entries share a worker. */
    ghost predicate Valid()
      reads this, workers.Values
    {
      workers.Keys == status.Keys && forall k :: k in workers ==> workers[k].key == k
    }

    constructor ()
      ensures Valid() && workers == map[] && status == map[]
    {
      workers, status := map[], map[];
    }

    /** What the protocol keeps of the two maps and the channels. */
    ghost function Seen(): Snapshot
      reads this, workers.Values
    {
      Snapshot(map k | k in workers :: workers[k].stopCh, status)
    }

    /** Starts a worker exactly when the application has a probe and no entry for its key. A worker for a startup
        probe gets no specification. */
    method AddApp(app: Option<ProbedApp>) returns (started: Worker?)
      requires Valid()
      modifies this
      ensures Valid()
      ensures started != null <==>
                app.Some? && (app.value.liveness.Some? || app.value.startup) &&
                ProbeKey(app.value.name, app.value.version, app.value.liveness.None?) !in old(workers)
      ensures started == null ==> workers == old(workers) && status == old(status)
      ensures started != null ==>
                var key := ProbeKey(app.value.name, app.value.version, app.value.liveness.None?);
                && fresh(started) && started.key == key && started.spec == app.value.liveness && started.stopCh == 0
                && workers == old(workers)[key := started] && status == old(status)[key := 0]
      ensures started != null ==> (started.key.startup <==> started.spec.None?)
      ensures Seen() == if app.Some? && app.value.Probed() then old(Seen()).Add(app.value.Key()) else old(Seen())
    {
      if app.None? {
        return null;
      }
      var startup := false;
      if app.value.liveness.None? {
        if !app.value.startup {
          return null;
        }
        startup := true;
      }
      var key := ProbeKey(app.value.name, app.value.version, startup);
      if key in workers {
        return null;
      }
      var w := new Worker(key, app.value.liveness);
      workers := workers[key := w];
      status := status[key := 0];
      started := w;
    }

    method RemoveApp(info: Option<AppInfo>)
      requires Valid()
      modifies workers.Values`stopCh
      ensures Valid()
      ensures forall k :: k in workers ==>
                workers[k].stopCh ==
                if info.Some? && k.name == info.value.name && k.version == info.value.version && old(workers[k].stopCh) == 0
                then 1 else old(workers[k].stopCh)
      ensures Seen() == if info.Some? then old(Seen()).Remove(info.value.name, info.value.version) else old(Seen())
    {
      if info.Some? {
        StopNamed(info.value);
      }
    }

    method StopNamed(info: AppInfo)
      requires Valid()
      modifies workers.Values`stopCh
      ensures Valid()
      ensures forall k :: k in workers ==>
                workers[k].stopCh == if Named(k, info.name, info.version) then Sent(old(workers[k].stopCh))
                                     else old(workers[k].stopCh)
    {
      var livenessKey := ProbeKey(info.name, info.version, false);
      if livenessKey in workers {
        workers[livenessKey].Stop();
      }
      var startupKey := ProbeKey(info.name, info.version, true);
      if startupKey in workers {
        workers[startupKey].Stop();
      }
    }

    /** One cleanup pass, visiting the workers in any order. */
    method CleanupApps(apps: set<string>)
      requires Valid()
      modifies this`status, workers.Values`stopCh
      ensures Valid()
      ensures status.Keys == old(status).Keys
      ensures forall k :: k in workers ==>
                var listed := MakeKey(APPLICATION, k.name, k.version) in apps;
                && status[k] == (if listed then 0 else old(status)[k] + 1)
                && workers[k].stopCh ==
                   if !listed && old(status)[k] + 1 >= 3 && old(workers[k].stopCh) == 0 then 1 else old(workers[k].stopCh)
      ensures Seen() == old(Seen()).Cleanup(apps)
    {
      VisitAll(apps);
    }

    // the loop over the workers, in any order
    method VisitAll(apps: set<string>)
      requires Valid()
      modifies this`status, workers.Values`stopCh
      ensures Valid()
      ensures status == CleanStatus(old(status), apps)
      ensures forall k :: k in workers ==> workers[k].stopCh == Signalled(old(workers[k].stopCh), old(status), k, apps)
    {
      var rest := workers.Keys;
      while rest != {}
        invariant rest <= workers.Keys && status.Keys == old(status).Keys
        invariant forall k :: k in rest ==> status[k] == old(status)[k]
        invariant forall k :: k in status && k !in rest ==> status[k] == Missed(old(status)[k], k, apps)
        invariant forall k :: k in rest ==> workers[k].stopCh == old(workers[k].stopCh)
        invariant forall k :: k in workers && k !in rest ==>
                    workers[k].stopCh == Signalled(old(workers[k].stopCh), old(status), k, apps)
      {
        var key := Pick(rest);
        rest := rest - {key};
        Visit(key, apps);
      }
    }

    // one worker of a cleanup pass
    method Visit(key: ProbeKey, apps: set<string>)
      requires Valid() && key in workers
      modifies this`status, {workers[key]}`stopCh
      ensures status == old(status)[key := Missed(old(status)[key], key, apps)]
      ensures workers[key].stopCh == Signalled(old(workers[key].stopCh), old(status), key, apps)
      ensures forall k :: k in workers && k != key ==> workers[k].stopCh == old(workers[k].stopCh)
    {
      var w := workers[key];
      if ListingKey(key) !in apps {
        status := status[key := status[key] + 1];
        if status[key] >= MAX_PROBE_RETRIES {
          w.Stop();
        }
      } else {
        status := status[key := 0];
      }
    }

    method RemoveWorker(key: ProbeKey)
      requires Valid()
      modifies this
      ensures Valid()
      ensures workers == old(workers) - {key} && status == old(status) - {key}
      ensures Seen() == old(Seen()).Drop(key)
    {
      workers := workers - {key};
      status := status - {key};
    }
  }

  // the miss counter of a worker after a pass
  function Missed(count: int, key: ProbeKey, apps: set<string>): int {
    if ListingKey(key) in apps then 0 else count + 1
  }

  // its stop channel after a pass
  function Signalled(tokens: nat, status: map<ProbeKey, int>, key: ProbeKey, apps: set<string>): nat {
    if Due(status, apps, key) then Sent(tokens) else tokens
  }
}
