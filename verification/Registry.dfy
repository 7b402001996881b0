/** The registry of probe workers as a protocol: manager methods under the lock and workers that exit on
    their own, in any interleaving (ami/native/prober/prober_manager.go, worker.go). */
module Registry {
  import opened Keys
  import opened Prober

  // the key under which a report lists the application
  function ListingKey(key: ProbeKey): string {
    MakeKey(APPLICATION, key.name, key.version)
  }

  // the miss counters after a cleanup pass that lists apps
  function CleanStatus(status: map<ProbeKey, int>, apps: set<string>): map<ProbeKey, int> {
    map key | key in status :: if ListingKey(key) in apps then 0 else status[key] + 1
  }

  // the pass stops this worker
  predicate Due(status: map<ProbeKey, int>, apps: set<string>, key: ProbeKey) {
    key in status && ListingKey(key) !in apps && status[key] + 1 >= MAX_PROBE_RETRIES
  }

  // a non-blocking send on a channel with room for one
  function Sent(tokens: nat): nat {
    if tokens == 0 then 1 else tokens
  }

  datatype WorkerState = WorkerState(key: ProbeKey, tokens: nat, exiting: bool)

  /** workers maps keys to worker identities; live holds every worker whose goroutine has not returned. */
  datatype State = State(workers: map<ProbeKey, nat>, status: map<ProbeKey, int>, live: map<nat, WorkerState>)

  const EMPTY := State(map[], map[], map[])

  datatype Action =
    | Add(key: ProbeKey, id: nat)
    | Remove(name: string, version: string)
    | Cleanup(apps: set<string>)
    | TakeStop(id: nat)
    | ProbeEnds(id: nat)
    | Leave(id: nat)

  predicate Named(key: ProbeKey, name: string, version: string) {
    key.name == name && key.version == version
  }

  // send a token to every live worker that is registered under a key of the set
  function Signal(s: State, keys: set<ProbeKey>): map<nat, WorkerState> {
    map id | id in s.live ::
      var w := s.live[id];
      if w.key in keys && w.key in s.workers && s.workers[w.key] == id then w.(tokens := Sent(w.tokens)) else w
  }

  function KeysOf(s: State, name: string, version: string): set<ProbeKey> {
    set k | k in s.workers && Named(k, name, version)
  }

  function DueKeys(status: map<ProbeKey, int>, apps: set<string>): set<ProbeKey> {
    set k | k in status && Due(status, apps, k)
  }

  predicate Enabled(s: State, a: Action) {
    match a
    case Add(_, id) => id !in s.live
    case TakeStop(id) => id in s.live && !s.live[id].exiting && s.live[id].tokens > 0
    case ProbeEnds(id) => id in s.live && !s.live[id].exiting
    case Leave(id) => id in s.live && s.live[id].exiting
    case _ => true
  }

  function After(s: State, a: Action): State
    requires Enabled(s, a)
  {
    match a
    case Add(key, id) =>
      if key in s.workers then s
      else State(s.workers[key := id], s.status[key := 0], s.live[id := WorkerState(key, 0, false)])
    case Remove(name, version) => s.(live := Signal(s, KeysOf(s, name, version)))
    case Cleanup(apps) =>
      s.(status := CleanStatus(s.status, apps), live := Signal(s, DueKeys(s.status, apps)))
    case TakeStop(id) => s.(live := s.live[id := s.live[id].(tokens := s.live[id].tokens - 1, exiting := true)])
    case ProbeEnds(id) => s.(live := s.live[id := s.live[id].(exiting := true)])
    case Leave(id) =>
      var key := s.live[id].key;
      State(s.workers - {key}, s.status - {key}, s.live - {id})
  }

  predicate IsRun(s: State, actions: seq<Action>)
    decreases |actions|, 0
  {
    actions == [] ||
    (IsRun(s, actions[..|actions| - 1]) && Enabled(End(s, actions[..|actions| - 1]), actions[|actions| - 1]))
  }

  function End(s: State, actions: seq<Action>): State
    requires IsRun(s, actions)
    decreases |actions|, 1
  {
    if actions == [] then s else After(End(s, actions[..|actions| - 1]), actions[|actions| - 1])
  }

  /** The map entry of a key is exactly the one live worker of that key, the two maps have the same keys, and
      a stop channel never holds more than one token. */
  ghost predicate Inv(s: State) {
    && (forall id :: id in s.live ==> s.live[id].key in s.workers && s.workers[s.live[id].key] == id)
    && (forall key :: key in s.workers ==> s.workers[key] in s.live && s.live[s.workers[key]].key == key)
    && s.workers.Keys == s.status.Keys
    && (forall id :: id in s.live ==> s.live[id].tokens <= 1)
    && (forall key :: key in s.status ==> s.status[key] >= 0)
  }

  lemma {:induction false} StepKeepsInv(s: State, a: Action)
    requires Inv(s) && Enabled(s, a)
    ensures Inv(After(s, a))
  {
  }

  /** Registry safety over every run of every interleaving. */
  lemma {:induction false} RunKeepsInv(actions: seq<Action>)
    requires IsRun(EMPTY, actions)
    ensures Inv(End(EMPTY, actions))
  {
    if actions != [] {
      RunKeepsInv(actions[..|actions| - 1]);
      StepKeepsInv(End(EMPTY, actions[..|actions| - 1]), actions[|actions| - 1]);
    }
  }

  /** At most one live worker per key. */
  lemma {:induction false} OneWorkerPerKey(actions: seq<Action>, id1: nat, id2: nat)
    requires IsRun(EMPTY, actions)
    requires var s := End(EMPTY, actions); id1 in s.live && id2 in s.live && s.live[id1].key == s.live[id2].key
    ensures id1 == id2
  {
    RunKeepsInv(actions);
  }

  /** A worker that leaves removes its own entry and no other. */
  lemma {:induction false} LeavingRemovesOnlySelf(actions: seq<Action>, id: nat)
    requires IsRun(EMPTY, actions) && Enabled(End(EMPTY, actions), Leave(id))
    ensures var s := End(EMPTY, actions);
            var t := After(s, Leave(id));
            && t.live == s.live - {id} && t.workers.Keys == s.workers.Keys - {s.live[id].key}
            && s.live[id].key in s.workers && s.workers[s.live[id].key] == id
            && forall key :: key in t.workers ==> t.workers[key] == s.workers[key] && t.workers[key] != id
  {
    RunKeepsInv(actions);
  }

  /** A token stays in the channel until its worker takes it. */
  lemma {:induction false} TokenStays(s: State, actions: seq<Action>, id: nat)
    requires IsRun(s, actions) && id in s.live && s.live[id].tokens > 0
    requires forall i :: 0 <= i < |actions| ==> actions[i] != TakeStop(id) && actions[i] != Leave(id)
    ensures var t := End(s, actions); id in t.live && t.live[id].tokens > 0
  {
    if actions != [] {
      var front, last := actions[..|actions| - 1], actions[|actions| - 1];
      assert forall i :: 0 <= i < |front| ==> front[i] == actions[i];
      TokenStays(s, front, id);
      assert last == actions[|front|];
    }
  }

  // consecutive latest cleanup passes that did not list the worker's application, since it was added or listed
  function Misses(actions: seq<Action>, key: ProbeKey): nat
    requires IsRun(EMPTY, actions)
  {
    if actions == [] then 0
    else
      var front, last := actions[..|actions| - 1], actions[|actions| - 1];
      if last.Cleanup? then (if ListingKey(key) in last.apps then 0 else Misses(front, key) + 1)
      else if last.Add? && last.key == key && key !in End(EMPTY, front).workers then 0
      else Misses(front, key)
  }

  /** The counter of a registered worker is that number, in every run. */
  lemma {:induction false} CounterExactly(actions: seq<Action>, key: ProbeKey)
    requires IsRun(EMPTY, actions) && key in End(EMPTY, actions).status
    ensures End(EMPTY, actions).status[key] == Misses(actions, key)
  {
    if actions != [] {
      var front, last := actions[..|actions| - 1], actions[|actions| - 1];
      RunKeepsInv(front);
      if key in End(EMPTY, front).status {
        CounterExactly(front, key);
      }
    }
  }

  /** A cleanup pass sends a token to a worker exactly when the worker's application was missing from this
      pass and at least two before it in a row, and no token was there already. */
  lemma {:induction false} CleanupStopsExactly(actions: seq<Action>, apps: set<string>, id: nat)
    requires IsRun(EMPTY, actions) && id in End(EMPTY, actions).live
    requires IsRun(EMPTY, actions + [Cleanup(apps)])
    ensures var s := End(EMPTY, actions);
            var t := After(s, Cleanup(apps));
            id in t.live &&
            (t.live[id].tokens > s.live[id].tokens <==>
             s.live[id].tokens == 0 && Misses(actions + [Cleanup(apps)], s.live[id].key) >= 3)
  {
    var s, key := End(EMPTY, actions), End(EMPTY, actions).live[id].key;
    RunKeepsInv(actions);
    CounterExactly(actions, key);
    assert (actions + [Cleanup(apps)])[..|actions|] == actions;
  }

  // on its way out: a token is waiting, or the loop has ended
  predicate Doomed(w: WorkerState) {
    w.tokens > 0 || w.exiting
  }

  /** Exactly when an added application ends up with a worker that is not on its way out: its key was free, or its
      worker was not doomed. */
  lemma {:induction false} AddProbesExactly(s: State, key: ProbeKey, id: nat)
    requires Inv(s) && id !in s.live
    ensures var t := After(s, Add(key, id));
            && key in t.workers && t.workers[key] in t.live
            && (!Doomed(t.live[t.workers[key]]) <==> key !in s.workers || !Doomed(s.live[s.workers[key]]))
  {
  }

  /** A doomed worker keeps its key, and stays doomed, in every run until it leaves, whatever is added. */
  lemma {:induction false} DoomedStays(s: State, actions: seq<Action>, id: nat)
    requires Inv(s) && IsRun(s, actions) && id in s.live && Doomed(s.live[id])
    requires forall i :: 0 <= i < |actions| ==> actions[i] != Leave(id)
    ensures var t := End(s, actions);
            && Inv(t) && id in t.live && Doomed(t.live[id]) && t.live[id].key == s.live[id].key
            && t.live[id].key in t.workers && t.workers[t.live[id].key] == id
  {
    if actions != [] {
      var front, last := actions[..|actions| - 1], actions[|actions| - 1];
      assert forall i :: 0 <= i < |front| ==> front[i] == actions[i];
      DoomedStays(s, front, id);
      StepKeepsInv(End(s, front), last);
      assert last == actions[|front|];
    }
  }

  /** So an application added while its worker is doomed has none once that worker has left. */
  lemma {:induction false} AddWhileDoomedIsLost(s: State, key: ProbeKey, id: nat, actions: seq<Action>)
    requires Inv(s) && key in s.workers && Doomed(s.live[s.workers[key]]) && id !in s.live
    requires IsRun(s, [Add(key, id)] + actions)
    requires forall i :: 0 <= i < |actions| ==> actions[i] != Leave(s.workers[key])
    requires Enabled(End(s, [Add(key, id)] + actions), Leave(s.workers[key]))
    ensures key !in After(End(s, [Add(key, id)] + actions), Leave(s.workers[key])).workers
  {
    DoomedStays(s, [Add(key, id)] + actions, s.workers[key]);
  }

  /** A run of that kind: removed, added again before the worker has left, and unprobed in the end. */
  lemma {:induction false} ReAddCanBeLost(key: ProbeKey)
    ensures var actions := [Add(key, 0), Remove(key.name, key.version), Add(key, 1), TakeStop(0), Leave(0)];
            IsRun(EMPTY, actions) && End(EMPTY, actions) == EMPTY
  {
    var w := WorkerState(key, 0, false);
    var s1 := State(map[key := 0], map[key := 0], map[0 := w.(tokens := 1)]);
    var a0 := [] + [Add(key, 0)];
    ExtendRun(EMPTY, [], Add(key, 0));
    assert End(EMPTY, a0) == State(map[key := 0], map[key := 0], map[0 := w]);
    var a1 := a0 + [Remove(key.name, key.version)];
    ExtendRun(EMPTY, a0, Remove(key.name, key.version));
    assert End(EMPTY, a1) == s1;
    var a2 := a1 + [Add(key, 1)];
    ExtendRun(EMPTY, a1, Add(key, 1));
    var a3 := a2 + [TakeStop(0)];
    ExtendRun(EMPTY, a2, TakeStop(0));
    assert End(EMPTY, a3) == s1.(live := map[0 := w.(exiting := true)]);
    ExtendRun(EMPTY, a3, Leave(0));
    assert a3 + [Leave(0)] == [Add(key, 0), Remove(key.name, key.version), Add(key, 1), TakeStop(0), Leave(0)];
  }

  lemma {:induction false} ExtendRun(s: State, actions: seq<Action>, a: Action)
    requires IsRun(s, actions) && Enabled(End(s, actions), a)
    ensures IsRun(s, actions + [a]) && End(s, actions + [a]) == After(End(s, actions), a)
  {
  }

  // ----- what the manager sees -----

  /** The tokens of each registered worker and the miss counters. */
  datatype Snapshot = Snapshot(tokens: map<ProbeKey, nat>, status: map<ProbeKey, int>) {
    function Add(key: ProbeKey): Snapshot {
      if key in tokens then this else Snapshot(tokens[key := 0], status[key := 0])
    }

    function Remove(name: string, version: string): Snapshot {
      this.(tokens := map k | k in tokens :: if Named(k, name, version) then Sent(tokens[k]) else tokens[k])
    }

    function Cleanup(apps: set<string>): Snapshot {
      Snapshot(map k | k in tokens :: if Due(status, apps, k) then Sent(tokens[k]) else tokens[k],
               CleanStatus(status, apps))
    }

    function Drop(key: ProbeKey): Snapshot {
      Snapshot(tokens - {key}, status - {key})
    }
  }

  ghost function SnapshotOf(s: State): Snapshot
    requires Inv(s)
  {
    Snapshot(map k | k in s.workers :: s.live[s.workers[k]].tokens, s.status)
  }

  lemma {:induction false} SignalKeepsInv(s: State, keys: set<ProbeKey>)
    requires Inv(s)
    ensures Inv(s.(live := Signal(s, keys)))
  {
  }

  lemma {:induction false} SignalSnapshot(s: State, keys: set<ProbeKey>)
    requires Inv(s)
    ensures var t := s.(live := Signal(s, keys));
            && Inv(t) && SnapshotOf(t).status == s.status && SnapshotOf(t).tokens.Keys == SnapshotOf(s).tokens.Keys
            && forall k :: k in s.workers ==>
                 SnapshotOf(t).tokens[k] ==
                 if k in keys then Sent(SnapshotOf(s).tokens[k]) else SnapshotOf(s).tokens[k]
  {
    SignalKeepsInv(s, keys);
  }

  // the snapshot after an action, from the one before
  ghost function Follow(s: State, a: Action): Snapshot
    requires Inv(s) && Enabled(s, a)
  {
    var v := SnapshotOf(s);
    match a
    case Add(key, _) => v.Add(key)
    case Remove(name, version) => v.Remove(name, version)
    case Cleanup(apps) => v.Cleanup(apps)
    case TakeStop(id) => v.(tokens := v.tokens[s.live[id].key := s.live[id].tokens - 1])
    case ProbeEnds(_) => v
    case Leave(id) => v.Drop(s.live[id].key)
  }

  lemma {:induction false} OwnKeepsInv(s: State, id: nat, w: WorkerState)
    requires Inv(s) && id in s.live && w.key == s.live[id].key && w.tokens <= 1
    ensures Inv(s.(live := s.live[id := w]))
  {
  }

  lemma {:induction false} OwnSnapshot(s: State, id: nat, w: WorkerState)
    requires Inv(s) && id in s.live && w.key == s.live[id].key && w.tokens <= 1
    ensures var t := s.(live := s.live[id := w]);
            Inv(t) && SnapshotOf(t) == SnapshotOf(s).(tokens := SnapshotOf(s).tokens[w.key := w.tokens])
  {
    var t := s.(live := s.live[id := w]);
    OwnKeepsInv(s, id, w);
    forall k | k in s.workers && k != w.key ensures t.live[t.workers[k]] == s.live[s.workers[k]] {
      assert s.live[s.workers[k]].key == k;
    }
    assert SnapshotOf(t).tokens == SnapshotOf(s).tokens[w.key := w.tokens];
  }

  lemma {:induction false} LeaveSnapshot(s: State, id: nat)
    requires Inv(s) && Enabled(s, Leave(id))
    ensures var t := After(s, Leave(id)); Inv(t) && SnapshotOf(t) == SnapshotOf(s).Drop(s.live[id].key)
  {
    var t := After(s, Leave(id));
    forall k | k in t.workers ensures t.workers[k] in t.live && t.live[t.workers[k]] == s.live[s.workers[k]] {
      assert s.live[s.workers[k]].key == k;
    }
  }

  lemma {:induction false} AddTokens(v: Snapshot, w: Snapshot, key: ProbeKey)
    requires key !in v.tokens && w.tokens.Keys == v.tokens.Keys + {key} && w.tokens[key] == 0
    requires w.status == v.status[key := 0] && forall k :: k in v.tokens ==> w.tokens[k] == v.tokens[k]
    ensures w == v.Add(key)
  {
    assert w.tokens == v.tokens[key := 0];
  }

  lemma {:induction false} AddIs(s: State, key: ProbeKey, id: nat)
    requires Inv(s) && Enabled(s, Add(key, id)) && key !in s.workers
    ensures var t := After(s, Add(key, id));
            && Inv(t) && SnapshotOf(t).tokens.Keys == SnapshotOf(s).tokens.Keys + {key}
            && SnapshotOf(t).status == s.status[key := 0] && SnapshotOf(t).tokens[key] == 0
            && forall k :: k in s.workers ==> SnapshotOf(t).tokens[k] == SnapshotOf(s).tokens[k]
  {
    StepKeepsInv(s, Add(key, id));
  }

  lemma {:induction false} AddSnapshot(s: State, key: ProbeKey, id: nat)
    requires Inv(s) && Enabled(s, Add(key, id))
    ensures var t := After(s, Add(key, id)); Inv(t) && SnapshotOf(t) == SnapshotOf(s).Add(key)
  {
    if key !in s.workers {
      AddIs(s, key, id);
      AddTokens(SnapshotOf(s), SnapshotOf(After(s, Add(key, id))), key);
    }
  }

  lemma {:induction false} RemoveIs(s: State, name: string, version: string)
    ensures After(s, Remove(name, version)) == s.(live := Signal(s, KeysOf(s, name, version)))
  {
  }

  lemma {:induction false} RemoveTokens(s: State, v: Snapshot, w: Snapshot, name: string, version: string)
    requires v.tokens.Keys == s.workers.Keys == w.tokens.Keys && w.status == v.status
    requires forall k :: k in s.workers ==>
               w.tokens[k] == if k in KeysOf(s, name, version) then Sent(v.tokens[k]) else v.tokens[k]
    ensures w == v.Remove(name, version)
  {
    assert w.tokens == v.Remove(name, version).tokens;
  }

  lemma {:induction false} RemoveSnapshot(s: State, name: string, version: string)
    requires Inv(s)
    ensures var t := After(s, Remove(name, version)); Inv(t) && SnapshotOf(t) == SnapshotOf(s).Remove(name, version)
  {
    SignalSnapshot(s, KeysOf(s, name, version));
    RemoveIs(s, name, version);
    var t := s.(live := Signal(s, KeysOf(s, name, version)));
    RemoveTokens(s, SnapshotOf(s), SnapshotOf(t), name, version);
  }

  lemma {:induction false} CleanupTokens(v: Snapshot, w: Snapshot, apps: set<string>)
    requires v.tokens.Keys == v.status.Keys == w.tokens.Keys
    requires forall k :: k in v.tokens ==>
               w.tokens[k] == if k in DueKeys(v.status, apps) then Sent(v.tokens[k]) else v.tokens[k]
    ensures w.tokens == v.Cleanup(apps).tokens
  {
  }

  lemma {:induction false} RecountSnapshot(s: State, status: map<ProbeKey, int>)
    requires Inv(s) && status.Keys == s.status.Keys && forall k :: k in status ==> status[k] >= 0
    ensures Inv(s.(status := status)) && SnapshotOf(s.(status := status)) == SnapshotOf(s).(status := status)
  {
  }

  lemma {:induction false} CleanupSnapshot(s: State, apps: set<string>)
    requires Inv(s)
    ensures var t := After(s, Cleanup(apps)); Inv(t) && SnapshotOf(t) == SnapshotOf(s).Cleanup(apps)
  {
    var t := s.(live := Signal(s, DueKeys(s.status, apps)));
    SignalSnapshot(s, DueKeys(s.status, apps));
    CleanupTokens(SnapshotOf(s), SnapshotOf(t), apps);
    RecountSnapshot(t, CleanStatus(s.status, apps));
    CleanupIs(s, apps);
  }

  lemma {:induction false} CleanupIs(s: State, apps: set<string>)
    ensures After(s, Cleanup(apps)) ==
            s.(live := Signal(s, DueKeys(s.status, apps))).(status := CleanStatus(s.status, apps))
  {
  }

  lemma {:induction false} TakeStopSnapshot(s: State, id: nat)
    requires Inv(s) && Enabled(s, TakeStop(id))
    ensures var t, v := After(s, TakeStop(id)), SnapshotOf(s);
            Inv(t) && SnapshotOf(t) == v.(tokens := v.tokens[s.live[id].key := s.live[id].tokens - 1])
  {
    var w := s.live[id].(tokens := s.live[id].tokens - 1, exiting := true);
    assert w.tokens <= 1;
    OwnSnapshot(s, id, w);
    assert After(s, TakeStop(id)) == s.(live := s.live[id := w]);
  }

  lemma {:induction false} ProbeEndsSnapshot(s: State, id: nat)
    requires Inv(s) && Enabled(s, ProbeEnds(id))
    ensures var t := After(s, ProbeEnds(id)); Inv(t) && SnapshotOf(t) == SnapshotOf(s)
  {
    OwnSnapshot(s, id, s.live[id].(exiting := true));
    assert SnapshotOf(s).tokens[s.live[id].key] == s.live[id].tokens;
  }

  /** Each action of the protocol is, on what the manager sees, the step its method makes. */
  lemma {:induction false} SnapshotFollows(s: State, a: Action)
    requires Inv(s) && Enabled(s, a)
    ensures Inv(After(s, a)) && SnapshotOf(After(s, a)) == Follow(s, a)
  {
    match a {
      case Add(key, id) => AddSnapshot(s, key, id);
      case Remove(name, version) => RemoveSnapshot(s, name, version);
      case Cleanup(apps) => CleanupSnapshot(s, apps);
      case Leave(id) => LeaveSnapshot(s, id);
      case TakeStop(id) => TakeStopSnapshot(s, id);
      case ProbeEnds(id) => ProbeEndsSnapshot(s, id);
    }
  }
}
