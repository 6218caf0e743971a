/** internal/worker/manager.go and initModem in internal/worker/worker.go: which worker answers for
    which SIM. Every method of the manager runs under its lock, so each is one step; a worker's own
    goroutine takes its steps between them. */
module Ownership {
  import opened Basics

  /** iccid is what initModem holds once RegisterICCID let it through, modem what setModem published. */
  datatype Worker = Worker(stopped: bool, reprobe: bool, iccid: Option<string>, modem: Option<string>)

  const NEW_WORKER := Worker(false, false, None, None)

  /** A worker: the round-th one ever started on its port. */
  datatype Tag = Tag(port: string, round: nat)

  /** made holds all workers ever started, those no longer listed included: their goroutines may
      still be under way. */
  datatype Fleet = Fleet(made: map<string, seq<Worker>>, workers: map<string, nat>,
                         active: map<string, string>, probed: set<string>)

  const EMPTY_FLEET := Fleet(map[], map[], map[], {})

  function MadeAt(f: Fleet, port: string): seq<Worker> {
    if port in f.made then f.made[port] else []
  }

  predicate Exists(f: Fleet, t: Tag) {
    t.round < |MadeAt(f, t.port)|
  }

  predicate Listed(f: Fleet, port: string) {
    port in f.workers && Exists(f, Tag(port, f.workers[port]))
  }

  function WorkerAt(f: Fleet, port: string): Worker
    requires Listed(f, port)
  {
    f.made[port][f.workers[port]]
  }

  function Update(f: Fleet, t: Tag, w: Worker): Fleet
    requires Exists(f, t)
  {
    f.(made := f.made[t.port := f.made[t.port][t.round := w]])
  }

  /** Every listed worker that was let through for a SIM owns the claim on it. */
  ghost predicate Owned(f: Fleet) {
    && (forall p :: p in f.workers ==> Listed(f, p) && p in f.probed)
    && (forall p, i :: p in f.made && 0 <= i < |f.made[p]| && f.made[p][i].modem.Some? ==>
          f.made[p][i].modem == f.made[p][i].iccid)
    && (forall p :: p in f.workers && WorkerAt(f, p).iccid.Some? ==>
          WorkerAt(f, p).iccid.value in f.active && f.active[WorkerAt(f, p).iccid.value] == p)
  }

  predicate Answers(f: Fleet, port: string, iccid: string) {
    Listed(f, port) && WorkerAt(f, port).modem == Some(iccid)
  }

  // ----- What the manager's methods compute -----

  ghost predicate HeldAt(f: Fleet, ports: set<string>, iccid: string) {
    exists p :: p in ports && Answers(f, p, iccid)
  }

  /** unregisterWorkerLocked for all the ports given. */
  ghost function Retired(f: Fleet, ports: set<string>): Fleet {
    f.(workers := f.workers - ports,
       active := map c | c in f.active && !HeldAt(f, ports, c) :: f.active[c])
  }

  function Stopped(f: Fleet, port: string): Fleet {
    if Listed(f, port)
    then Update(f, Tag(port, f.workers[port]), WorkerAt(f, port).(stopped := true))
    else f
  }

  ghost function Halted(f: Fleet, ports: set<string>): Fleet {
    f.(made := map p | p in f.made ::
      if p in ports && Listed(f, p) then f.made[p][f.workers[p] := WorkerAt(f, p).(stopped := true)] else f.made[p])
  }

  function StoppedIn(f: Fleet, ports: set<string>): set<string> {
    set p | p in ports && Listed(f, p) && WorkerAt(f, p).stopped
  }

  function ReprobedIn(f: Fleet, ports: set<string>): set<string> {
    set p | p in StoppedIn(f, ports) && WorkerAt(f, p).reprobe
  }

  /** cleanupStoppedWorkersLocked as far as the ports given. */
  ghost function Cleaned(f: Fleet, ports: set<string>): Fleet {
    Retired(f, StoppedIn(f, ports)).(probed := f.probed - ReprobedIn(f, ports))
  }

  function NewMade(f: Fleet, ports: set<string>): map<string, seq<Worker>> {
    map p | p in ports :: MadeAt(f, p) + [NEW_WORKER]
  }

  function NewWorkers(f: Fleet, ports: set<string>): map<string, nat> {
    map p | p in ports :: |MadeAt(f, p)|
  }

  /** A new worker on each of the ports not probed yet. */
  function Started(f: Fleet, ports: set<string>): Fleet {
    var unseen := ports - f.probed;
    f.(made := f.made + NewMade(f, unseen), workers := f.workers + NewWorkers(f, unseen), probed := f.probed + unseen)
  }

  ghost function Scanned(f: Fleet, valid: set<string>): Fleet {
    var gone := f.workers.Keys - valid;
    var present := Retired(Halted(f, gone), gone).(probed := f.probed * valid);
    Started(Cleaned(present, present.workers.Keys), valid)
  }

  function Claimed(f: Fleet, port: string, iccid: string): Fleet {
    if iccid in f.active then f else f.(active := f.active[iccid := port])
  }

  predicate Admits(f: Fleet, port: string, iccid: string) {
    iccid in f.active ==> f.active[iccid] == port
  }

  /** RemoveWorkerByICCID on any fleet: one of the workers answering for iccid goes, whichever the map
      yields first, or the claim alone does. */
  ghost predicate RemovesOne(f: Fleet, iccid: string, g: Fleet) {
    exists p :: Answers(f, p, iccid) && g == Retired(Stopped(f, p), {p})
  }

  function Unclaimed(f: Fleet, iccid: string): Fleet {
    f.(active := f.active - {iccid})
  }

  /** The port whose worker answers for iccid. */
  function OwnerOf(f: Fleet, iccid: string): Option<string> {
    if iccid in f.active && Answers(f, f.active[iccid], iccid) then Some(f.active[iccid]) else None
  }

  /** The same when claims are owned, so that at most one worker answers. */
  ghost function Removed(f: Fleet, iccid: string): Fleet {
    match OwnerOf(f, iccid)
    case Some(p) => Retired(Stopped(f, p), {p})
    case None => Unclaimed(f, iccid)
  }

  /** Where a request for iccid goes. */
  function Routed(f: Fleet, iccid: string): Option<Tag> {
    match OwnerOf(f, iccid)
    case Some(p) => if WorkerAt(f, p).stopped then None else Some(Tag(p, f.workers[p]))
    case None => None
  }

  // ----- The manager -----

  lemma RetireOneMore(f: Fleet, ports: set<string>, p: string)
    requires p !in ports
    ensures Retired(f, ports + {p}) == Retired(Retired(f, ports), {p})
    ensures Retired(f, {}) == f
  {
    var once, twice := Retired(f, ports), Retired(Retired(f, ports), {p});
    assert forall c :: Answers(once, p, c) <==> Answers(f, p, c);
    assert forall c :: HeldAt(f, ports + {p}, c) <==> HeldAt(f, ports, c) || Answers(f, p, c);
    assert forall c :: HeldAt(once, {p}, c) <==> Answers(f, p, c);
    assert Retired(f, ports + {p}).active == twice.active;
    assert Retired(f, ports + {p}).workers == twice.workers;
    assert Retired(f, {}).workers == f.workers && Retired(f, {}).active == f.active;
  }

  lemma HaltOneMore(f: Fleet, ports: set<string>, p: string)
    requires p !in ports && Listed(f, p)
    ensures Retired(Halted(f, ports + {p}), ports + {p})
      == Retired(Stopped(Retired(Halted(f, ports), ports), p), {p})
    ensures Retired(Halted(f, {}), {}) == f
  {
    var h := Halted(f, ports);
    var s := Stopped(Retired(h, ports), p);
    var h' := Halted(f, ports + {p});
    assert s.made == h'.made;
    assert forall q, c :: Answers(h', q, c) <==> Answers(h, q, c);
    assert forall c :: HeldAt(h', ports, c) <==> HeldAt(h, ports, c);
    assert Retired(h', ports).active == Retired(h, ports).active;
    assert Retired(h', ports) == s;
    RetireOneMore(h', ports, p);
    RetireOneMore(f, ports, p);
    assert Halted(f, {}).made == f.made;
  }

  lemma CleanOneMore(f: Fleet, ports: set<string>, p: string)
    requires p !in ports && Listed(f, p)
    ensures var c := Cleaned(f, ports);
      Cleaned(f, ports + {p}) ==
        if !WorkerAt(f, p).stopped then c
        else Retired(c, {p}).(probed := if WorkerAt(f, p).reprobe then c.probed - {p} else c.probed)
    ensures Cleaned(f, {}) == f
  {
    RetireOneMore(f, StoppedIn(f, ports), p);
    assert StoppedIn(f, {}) == {} && ReprobedIn(f, {}) == {};
    if WorkerAt(f, p).stopped {
      assert StoppedIn(f, ports + {p}) == StoppedIn(f, ports) + {p};
      assert ReprobedIn(f, ports + {p}) == ReprobedIn(f, ports) + if WorkerAt(f, p).reprobe then {p} else {};
    } else {
      assert StoppedIn(f, ports + {p}) == StoppedIn(f, ports);
      assert ReprobedIn(f, ports + {p}) == ReprobedIn(f, ports);
    }
  }

  lemma StartSkips(f: Fleet, ports: set<string>, p: string)
    requires p in f.probed
    ensures Started(f, ports + {p}) == Started(f, ports)
  {
    assert ports + {p} - f.probed == ports - f.probed;
  }

  lemma MergeUpdated<V>(m: map<string, V>, n: map<string, V>, p: string, v: V)
    ensures m + n[p := v] == (m + n)[p := v]
  {
  }

  lemma NewOneMore(f: Fleet, ports: set<string>, p: string)
    requires p !in ports
    ensures NewMade(f, ports + {p}) == NewMade(f, ports)[p := MadeAt(f, p) + [NEW_WORKER]]
    ensures NewWorkers(f, ports + {p}) == NewWorkers(f, ports)[p := |MadeAt(f, p)|]
  {
  }

  lemma StartOneMore(f: Fleet, ports: set<string>, p: string)
    requires p !in ports && p !in f.probed
    ensures var s, s' := Started(f, ports), Started(f, ports + {p});
      && p !in s.probed && s'.probed == s.probed + {p} && s'.active == s.active
      && s'.made == s.made[p := MadeAt(s, p) + [NEW_WORKER]]
      && s'.workers == s.workers[p := |MadeAt(s, p)|]
  {
    var unseen := ports - f.probed;
    assert ports + {p} - f.probed == unseen + {p};
    assert MadeAt(Started(f, ports), p) == MadeAt(f, p);
    hide NewMade, NewWorkers, MadeAt;
    NewOneMore(f, unseen, p);
    MergeUpdated(f.made, NewMade(f, unseen), p, MadeAt(f, p) + [NEW_WORKER]);
    MergeUpdated(f.workers, NewWorkers(f, unseen), p, |MadeAt(f, p)|);
  }

  class Manager {
    var made: map<string, seq<Worker>>
    var workers: map<string, nat>
    var active: map<string, string>
    var probed: set<string>

    function View(): Fleet
      reads this
    {
      Fleet(made, workers, active, probed)
    }

    constructor ()
      ensures View() == EMPTY_FLEET
    {
      made, workers, active, probed := map[], map[], map[], {};
    }

    method UnregisterWorkerLocked(port: string)
      requires Listed(View(), port)
      modifies this`workers, this`active
      ensures View() == Retired(old(View()), {port})
    {
      ghost var f := View();
      var w := WorkerAt(View(), port);
      workers := workers - {port};
      assert forall c :: HeldAt(f, {port}, c) <==> w.modem == Some(c);
      if w.modem.Some? {
        active := active - {w.modem.value};
      }
      assert active == Retired(f, {port}).active;
    }

    method CleanupStoppedWorkersLocked()
      requires forall p :: p in workers ==> Listed(View(), p)
      modifies this`workers, this`active, this`probed
      ensures View() == Cleaned(old(View()), old(workers).Keys)
    {
      hide Retired, Cleaned;
      ghost var f := View();
      var rest := workers.Keys;
      ghost var seen: set<string> := {};
      CleanNone(f);
      while rest != {}
        invariant seen !! rest && seen + rest == f.workers.Keys
        invariant View() == Cleaned(f, seen)
        decreases rest
      {
        var p := NextKey(rest);
        CleanOneMore(f, seen, p);
        CleanLeaves(f, seen, p);
        rest, seen := rest - {p}, seen + {p};
        var w := WorkerAt(View(), p);
        if !w.stopped {
          continue;
        }
        UnregisterWorkerLocked(p);
        if w.reprobe {
          probed := probed - {p};
        }
      }
      assert seen == f.workers.Keys;
    }

    method StopWorker(port: string)
      requires Listed(View(), port)
      modifies this`made
      ensures View() == Stopped(old(View()), port)
    {
      made := made[port := made[port][workers[port] := WorkerAt(View(), port).(stopped := true)]];
    }

    method RemoveMissing(valid: set<string>)
      requires forall p :: p in workers ==> Listed(View(), p)
      modifies this
      ensures var f, gone := old(View()), old(workers).Keys - valid;
        View() == Retired(Halted(f, gone), gone).(probed := f.probed * valid)
    {
      hide Retired, Halted;
      ghost var f := View();
      ghost var seen: set<string> := {};
      var rest := workers.Keys;
      HaltNone(f);
      assert {} - valid == {};
      while rest != {}
        invariant seen !! rest && seen + rest == f.workers.Keys
        invariant View() == Retired(Halted(f, seen - valid), seen - valid)
        decreases rest
      {
        var p := NextKey(rest);
        assert seen + {p} - valid == if p in valid then seen - valid else (seen - valid) + {p};
        if p !in valid {
          HaltOneMore(f, seen - valid, p);
          HaltLeaves(f, seen - valid, p);
          StopWorker(p);
          UnregisterWorkerLocked(p);
        }
        rest, seen := rest - {p}, seen + {p};
      }
      assert seen == f.workers.Keys;
      ghost var g := View();
      KeepsProbed(f, f.workers.Keys - valid);
      rest := probed;
      while rest != {}
        invariant rest <= f.probed && probed == (f.probed * valid) + rest
        invariant View() == g.(probed := probed)
        decreases rest
      {
        var p := NextKey(rest);
        rest := rest - {p};
        if p !in valid {
          probed := probed - {p};
        }
      }
    }

    method StartMissing(valid: set<string>)
      modifies this
      ensures View() == Started(old(View()), valid)
    {
      hide Started;
      ghost var f := View();
      ghost var seen: set<string> := {};
      var rest := valid;
      StartNone(f);
      while rest != {}
        invariant seen !! rest && seen + rest == valid
        invariant View() == Started(f, seen)
        decreases rest
      {
        var p := NextKey(rest);
        StartedProbed(f, seen, p);
        if p in f.probed {
          StartSkips(f, seen, p);
        } else {
          StartOneMore(f, seen, p);
        }
        rest, seen := rest - {p}, seen + {p};
        if p in probed {
          continue;
        }
        workers := workers[p := |MadeAt(View(), p)|];
        made := made[p := MadeAt(View(), p) + [NEW_WORKER]];
        probed := probed + {p};
      }
      assert seen == valid;
    }

    /** valid holds the ports found, without those excluded. */
    method ScanAndManage(valid: set<string>)
      requires forall p :: p in workers ==> Listed(View(), p)
      modifies this
      ensures View() == Scanned(old(View()), valid)
    {
      ghost var f := View();
      RemoveMissing(valid);
      StillListed(f, f.workers.Keys - valid, f.probed * valid);
      CleanupStoppedWorkersLocked();
      StartMissing(valid);
    }

    method RegisterICCID(port: string, iccid: string) returns (ok: bool)
      modifies this`active
      ensures ok <==> iccid !in old(active) || old(active)[iccid] == port
      ensures active == if ok then old(active)[iccid := port] else old(active)
      ensures ok == Admits(old(View()), port, iccid)
      ensures View() == Claimed(old(View()), port, iccid)
    {
      if iccid in active {
        if active[iccid] != port {
          return false;
        }
        return true;
      }
      active := active[iccid := port];
      return true;
    }

    method RemoveWorkerByICCID(iccid: string) returns (found: bool)
      requires forall p :: p in workers ==> Listed(View(), p)
      modifies this
      ensures found <==> exists p :: Answers(old(View()), p, iccid)
      ensures if found then RemovesOne(old(View()), iccid, View()) else View() == Unclaimed(old(View()), iccid)
      ensures Owned(old(View())) ==> View() == Removed(old(View()), iccid)
    {
      hide Retired;
      ghost var f := View();
      var rest := workers.Keys;
      while rest != {}
        invariant rest <= workers.Keys && View() == f
        invariant forall p :: Answers(f, p, iccid) ==> p in rest
        decreases rest
      {
        var p := NextKey(rest);
        rest := rest - {p};
        if WorkerAt(View(), p).modem == Some(iccid) {
          if Owned(f) {
            OwnerIsUnique(f, p, iccid);
          }
          StopWorker(p);
          UnregisterWorkerLocked(p);
          assert Answers(f, p, iccid) && View() == Retired(Stopped(f, p), {p});
          return true;
        }
      }
      active := active - {iccid};
      return false;
    }

    method GetWorkerByICCID(iccid: string) returns (w: Option<Tag>)
      requires forall p :: p in workers ==> Listed(View(), p)
      ensures match w
        case Some(t) => Answers(View(), t.port, iccid) && !WorkerAt(View(), t.port).stopped && t.round == workers[t.port]
        case None => forall p :: Answers(View(), p, iccid) ==> WorkerAt(View(), p).stopped
      ensures Owned(View()) ==> w == Routed(View(), iccid)
    {
      var rest := workers.Keys;
      while rest != {}
        invariant rest <= workers.Keys
        invariant forall p :: Answers(View(), p, iccid) && !WorkerAt(View(), p).stopped ==> p in rest
        decreases rest
      {
        var p := NextKey(rest);
        rest := rest - {p};
        var worker := WorkerAt(View(), p);
        if worker.stopped {
          continue;
        }
        if worker.modem == Some(iccid) {
          if Owned(View()) {
            OwnerIsUnique(View(), p, iccid);
          }
          return Some(Tag(p, workers[p]));
        }
      }
      w := None;
    }
  }

  /** No two listed workers answer for one SIM. */
  lemma OwnerIsUnique(f: Fleet, port: string, iccid: string)
    requires Owned(f) && Answers(f, port, iccid)
    ensures OwnerOf(f, iccid) == Some(port)
    ensures forall p :: Answers(f, p, iccid) ==> p == port
  {
  }

  lemma HaltNone(f: Fleet)
    ensures Retired(Halted(f, {}), {}) == f
  {
    assert Halted(f, {}).made == f.made;
    CleanNone(f);
    assert StoppedIn(f, {}) == {} && ReprobedIn(f, {}) == {};
  }

  lemma HaltLeaves(f: Fleet, ports: set<string>, p: string)
    requires p !in ports && Listed(f, p)
    ensures Listed(Retired(Halted(f, ports), ports), p)
    ensures Listed(Stopped(Retired(Halted(f, ports), ports), p), p)
  {
  }

  lemma KeepsProbed(f: Fleet, ports: set<string>)
    ensures Retired(Halted(f, ports), ports).probed == f.probed
  {
  }

  lemma StillListed(f: Fleet, ports: set<string>, probed: set<string>)
    requires forall p :: p in f.workers ==> Listed(f, p)
    ensures var g := Retired(Halted(f, ports), ports).(probed := probed);
      forall p :: p in g.workers ==> Listed(g, p)
  {
  }

  lemma StartNone(f: Fleet)
    ensures Started(f, {}) == f
  {
    assert {} - f.probed == {};
  }

  lemma StartedProbed(f: Fleet, ports: set<string>, p: string)
    requires p !in ports
    ensures p in Started(f, ports).probed <==> p in f.probed
  {
  }

  lemma CleanNone(f: Fleet)
    ensures Cleaned(f, {}) == f
  {
    assert StoppedIn(f, {}) == {} && ReprobedIn(f, {}) == {};
    assert Retired(f, {}).workers == f.workers && Retired(f, {}).active == f.active;
  }

  lemma CleanLeaves(f: Fleet, ports: set<string>, p: string)
    requires p !in ports && Listed(f, p)
    ensures Listed(Cleaned(f, ports), p) && WorkerAt(Cleaned(f, ports), p) == WorkerAt(f, p)
  {
  }

  // ----- Every step keeps the claims -----

  lemma RetireKeepsOwned(f: Fleet, ports: set<string>)
    requires Owned(f)
    ensures Owned(Retired(f, ports))
  {
    var g := Retired(f, ports);
    forall p | p in g.workers && WorkerAt(g, p).iccid.Some?
      ensures WorkerAt(g, p).iccid.value in g.active && g.active[WorkerAt(g, p).iccid.value] == p
    {
      assert WorkerAt(g, p) == WorkerAt(f, p);
    }
  }

  /** Publishing and stopping do not touch a claim. */
  lemma UpdateKeepsOwned(f: Fleet, t: Tag, w: Worker)
    requires Owned(f) && Exists(f, t)
    requires w.iccid == f.made[t.port][t.round].iccid && (w.modem.Some? ==> w.modem == w.iccid)
    ensures Owned(Update(f, t, w))
  {
    var g := Update(f, t, w);
    assert forall p :: p in f.workers ==> Listed(g, p) && WorkerAt(g, p).iccid == WorkerAt(f, p).iccid;
  }

  lemma HaltKeepsOwned(f: Fleet, ports: set<string>)
    requires Owned(f)
    ensures Owned(Halted(f, ports))
  {
    var g := Halted(f, ports);
    assert forall p :: p in f.workers ==> Listed(g, p) && WorkerAt(g, p).iccid == WorkerAt(f, p).iccid;
  }

  lemma StartKeepsOwned(f: Fleet, ports: set<string>)
    requires Owned(f)
    ensures Owned(Started(f, ports))
  {
    hide Started;
    var g := Started(f, ports);
    assert g.active == f.active by {
      StartedClaims(f, ports);
    }
    forall p | p in g.workers
      ensures Listed(g, p) && p in g.probed && WorkerAt(g, p) == if p in f.workers then WorkerAt(f, p) else NEW_WORKER
    {
      StartedAt(f, ports, p);
    }
    forall p, i | p in g.made && 0 <= i < |g.made[p]| && g.made[p][i].modem.Some?
      ensures g.made[p][i].modem == g.made[p][i].iccid
    {
      StartedMade(f, ports, p);
    }
  }

  lemma StartedClaims(f: Fleet, ports: set<string>)
    ensures Started(f, ports).active == f.active
  {
  }

  lemma StartedAt(f: Fleet, ports: set<string>, p: string)
    requires Owned(f) && p in Started(f, ports).workers
    ensures var g := Started(f, ports);
      Listed(g, p) && p in g.probed && WorkerAt(g, p) == if p in f.workers then WorkerAt(f, p) else NEW_WORKER
  {
  }

  lemma StartedMade(f: Fleet, ports: set<string>, p: string)
    requires p in Started(f, ports).made
    ensures Started(f, ports).made[p] == MadeAt(f, p) || Started(f, ports).made[p] == MadeAt(f, p) + [NEW_WORKER]
  {
  }

  /** One scan, whatever ports it finds. */
  lemma ScanKeepsOwned(f: Fleet, valid: set<string>)
    requires Owned(f)
    ensures Owned(Scanned(f, valid))
  {
    hide Retired, Halted, Started, Owned;
    var gone := f.workers.Keys - valid;
    var h := Halted(f, gone);
    HaltKeepsOwned(f, gone);
    RetireKeepsOwned(h, gone);
    ForgetKeepsOwned(f, valid);
    var present := Retired(h, gone).(probed := f.probed * valid);
    CleanKeepsOwned(present);
    StartKeepsOwned(Cleaned(present, present.workers.Keys), valid);
  }

  lemma ForgetKeepsOwned(f: Fleet, valid: set<string>)
    requires var gone := f.workers.Keys - valid; Owned(f) && Owned(Retired(Halted(f, gone), gone))
    ensures var gone := f.workers.Keys - valid;
      Owned(Retired(Halted(f, gone), gone).(probed := f.probed * valid))
  {
  }

  lemma CleanKeepsOwned(f: Fleet)
    requires Owned(f)
    ensures Owned(Cleaned(f, f.workers.Keys))
  {
    var ports := f.workers.Keys;
    RetireKeepsOwned(f, StoppedIn(f, ports));
  }

  // ----- What one scan achieves -----

  /** This worker outlives a scan. */
  ghost predicate Survives(f: Fleet, port: string, valid: set<string>) {
    port in valid && Listed(f, port) && !WorkerAt(f, port).stopped
  }

  /** The port gets a new worker: it is new, it was away at the last scan, or its worker gave up and
      asked for another try. */
  ghost predicate Restarts(f: Fleet, port: string, valid: set<string>) {
    port in valid && (port !in f.probed || (Listed(f, port) && WorkerAt(f, port).stopped && WorkerAt(f, port).reprobe))
  }

  lemma PresentAfterRemoval(f: Fleet, valid: set<string>)
    requires Owned(f)
    ensures var gone := f.workers.Keys - valid;
      var g := Retired(Halted(f, gone), gone).(probed := f.probed * valid);
      && g.workers == f.workers - gone
      && (forall p :: p in valid ==> MadeAt(g, p) == MadeAt(f, p) && (Listed(g, p) <==> Listed(f, p)))
      && (forall p :: p in valid && Listed(f, p) ==> WorkerAt(g, p) == WorkerAt(f, p))
  {
  }

  lemma CleanedPorts(f: Fleet)
    requires Owned(f)
    ensures var g := Cleaned(f, f.workers.Keys);
      && g.made == f.made
      && (forall p :: p in g.workers <==> p in f.workers && !WorkerAt(f, p).stopped)
      && (forall p :: p in g.workers ==> g.workers[p] == f.workers[p])
      && (forall p :: p in g.probed <==>
            p in f.probed && !(p in f.workers && WorkerAt(f, p).stopped && WorkerAt(f, p).reprobe))
  {
  }

  lemma StartedPorts(f: Fleet, valid: set<string>)
    requires f.workers.Keys <= f.probed <= valid
    ensures var g := Started(f, valid);
      && g.probed == valid
      && (forall p :: p in g.workers <==> p in f.workers || (p in valid && p !in f.probed))
      && (forall p :: p in g.workers ==> g.workers[p] == if p in f.workers then f.workers[p] else |MadeAt(f, p)|)
      && (forall p :: MadeAt(g, p) == if p in valid && p !in f.probed then MadeAt(f, p) + [NEW_WORKER] else MadeAt(f, p))
  {
  }

  /** After a scan exactly the ports found count as probed; running workers on them go on, new or
      re-armed ports have a new worker that knows no SIM, and nothing else is listed. */
  lemma ScanOutcome(f: Fleet, valid: set<string>)
    requires Owned(f)
    ensures var g := Scanned(f, valid);
      && g.probed == valid
      && (forall p :: p in g.workers <==> Survives(f, p, valid) || Restarts(f, p, valid))
      && (forall p :: Survives(f, p, valid) ==>
            g.workers[p] == f.workers[p] && Listed(g, p) && WorkerAt(g, p) == WorkerAt(f, p))
      && (forall p :: Restarts(f, p, valid) ==>
            g.workers[p] == |MadeAt(f, p)| && Listed(g, p)
            && !WorkerAt(g, p).stopped && !WorkerAt(g, p).reprobe && WorkerAt(g, p).iccid.None? && WorkerAt(g, p).modem.None?)
  {
    hide Retired, Halted, Cleaned, Started, Owned;
    var gone := f.workers.Keys - valid;
    var present := Retired(Halted(f, gone), gone).(probed := f.probed * valid);
    var clean := Cleaned(present, present.workers.Keys);
    ListedIsProbed(f);
    PresentAfterRemoval(f, valid);
    HaltKeepsOwned(f, gone);
    RetireKeepsOwned(Halted(f, gone), gone);
    ForgetKeepsOwned(f, valid);
    ListedIsProbed(present);
    CleanedPorts(present);
    StartedPorts(clean, valid);
  }

  /** A scan stops exactly the listed workers whose port is gone, and changes no other worker. */
  lemma ScanStops(f: Fleet, valid: set<string>, t: Tag)
    requires Owned(f) && Exists(f, t)
    ensures var g := Scanned(f, valid);
      && Exists(g, t)
      && g.made[t.port][t.round] ==
           if t.port in f.workers && f.workers[t.port] == t.round && t.port !in valid
           then f.made[t.port][t.round].(stopped := true) else f.made[t.port][t.round]
  {
    var gone := f.workers.Keys - valid;
    var h := Halted(f, gone);
    assert MadeAt(h, t.port) == if t.port in gone && Listed(f, t.port)
      then f.made[t.port][f.workers[t.port] := WorkerAt(f, t.port).(stopped := true)] else f.made[t.port];
    var present := Retired(h, gone).(probed := f.probed * valid);
    var clean := Cleaned(present, present.workers.Keys);
    assert clean.made == h.made;
    StartedKeepsWorkers(clean, valid, t);
  }

  lemma StartedKeepsWorkers(f: Fleet, ports: set<string>, t: Tag)
    requires Exists(f, t)
    ensures var g := Started(f, ports); Exists(g, t) && g.made[t.port][t.round] == f.made[t.port][t.round]
  {
  }

  lemma ListedIsProbed(f: Fleet)
    requires Owned(f)
    ensures forall p :: p in f.workers ==> Listed(f, p) && p in f.probed
  {
  }

  // ----- Whole runs -----

  datatype Event =
    | Scan(valid: set<string>)
    | Register(t: Tag, iccid: string)    // initModem read an ICCID and asks to own it
    | Publish(t: Tag)                    // initModem saved the modem and calls setModem
    | Halt(t: Tag, reprobe: bool)        // the worker stops, for any reason
    | Remove(iccid: string)              // somebody deletes the SIM

  function TheWorker(f: Fleet, t: Tag): Worker
    requires Exists(f, t)
  {
    f.made[t.port][t.round]
  }

  predicate Enabled(f: Fleet, e: Event) {
    match e
    case Register(t, _) => Exists(f, t) && TheWorker(f, t).iccid.None?
    case Publish(t) => Exists(f, t) && TheWorker(f, t).iccid.Some?
    case Halt(t, _) => Exists(f, t)
    case _ => true
  }

  ghost function Step(f: Fleet, e: Event): Fleet
    requires Enabled(f, e)
  {
    match e
    case Scan(valid) => Scanned(f, valid)
    case Register(t, iccid) =>
      if Admits(f, t.port, iccid) then Update(Claimed(f, t.port, iccid), t, TheWorker(f, t).(iccid := Some(iccid)))
      else Update(f, t, TheWorker(f, t).(stopped := true))
    case Publish(t) => Update(f, t, TheWorker(f, t).(modem := TheWorker(f, t).iccid))
    case Halt(t, reprobe) => Update(f, t, TheWorker(f, t).(stopped := true, reprobe := TheWorker(f, t).reprobe || reprobe))
    case Remove(iccid) => Removed(f, iccid)
  }

  /** A listed worker has claimed iccid and not yet published it. */
  ghost predicate Starting(f: Fleet, iccid: string) {
    exists p :: p in f.workers && Listed(f, p) && WorkerAt(f, p).iccid == Some(iccid) && WorkerAt(f, p).modem.None?
  }

  lemma RegisterKeepsOwned(f: Fleet, t: Tag, iccid: string)
    requires Owned(f) && Enabled(f, Register(t, iccid))
    ensures Owned(Step(f, Register(t, iccid)))
  {
    if Admits(f, t.port, iccid) {
      var w := TheWorker(f, t).(iccid := Some(iccid));
      var g := Update(Claimed(f, t.port, iccid), t, w);
      forall p | p in g.workers
        ensures Listed(g, p) && WorkerAt(g, p) == if Tag(p, f.workers[p]) == t then w else WorkerAt(f, p)
      {
      }
    } else {
      UpdateKeepsOwned(f, t, TheWorker(f, t).(stopped := true));
    }
  }

  /** Deleting a SIM is safe exactly when some worker answers for it or none is about to: the
      claim of a worker that is still starting is thrown away from under it. */
  lemma RemoveKeepsOwned(f: Fleet, iccid: string)
    requires Owned(f)
    ensures Owned(Removed(f, iccid)) <==> OwnerOf(f, iccid).Some? || !Starting(f, iccid)
  {
    var g := Removed(f, iccid);
    if OwnerOf(f, iccid).Some? {
      var p := OwnerOf(f, iccid).value;
      UpdateKeepsOwned(f, Tag(p, f.workers[p]), WorkerAt(f, p).(stopped := true));
      RetireKeepsOwned(Stopped(f, p), {p});
    } else {
      assert forall p :: p in f.workers ==> Listed(g, p) && WorkerAt(g, p) == WorkerAt(f, p);
      assert forall p :: p in f.workers && WorkerAt(f, p).iccid == Some(iccid) && WorkerAt(f, p).modem.Some? ==>
        Answers(f, p, iccid);
    }
  }

  /** A worker that asks for a SIM gets it or stops; either way it is the only worker that changes. */
  lemma RegisterOutcome(f: Fleet, t: Tag, iccid: string)
    requires Enabled(f, Register(t, iccid))
    ensures var g := Step(f, Register(t, iccid));
      var w, w' := TheWorker(f, t), MadeAt(g, t.port);
      && |w'| == |MadeAt(f, t.port)| && t.round < |w'| && g.workers == f.workers && g.probed == f.probed
      && (if iccid !in f.active || f.active[iccid] == t.port
          then w'[t.round] == w.(iccid := Some(iccid)) && g.active == f.active[iccid := t.port]
          else w'[t.round] == w.(stopped := true) && g.active == f.active)
      && forall u :: u != t && Exists(f, u) ==> Exists(g, u) && TheWorker(g, u) == TheWorker(f, u)
  {
  }

  /** A worker that halts is stopped for good, and asks for a new probe if it ever did. */
  lemma HaltOutcome(f: Fleet, t: Tag, reprobe: bool)
    requires Exists(f, t)
    ensures var g := Step(f, Halt(t, reprobe));
      && Exists(g, t) && TheWorker(g, t).stopped && (TheWorker(g, t).reprobe <==> reprobe || TheWorker(f, t).reprobe)
      && TheWorker(g, t).iccid == TheWorker(f, t).iccid && TheWorker(g, t).modem == TheWorker(f, t).modem
      && g.active == f.active && g.workers == f.workers && g.probed == f.probed
  {
  }

  /** Deleting a SIM: its worker, if one answers, is stopped, off the list and without its claim; and
      nothing else changes but the claim. */
  lemma RemoveOutcome(f: Fleet, iccid: string)
    requires Owned(f)
    ensures var g := Removed(f, iccid);
      && iccid !in g.active && (forall c :: c in g.active <==> c in f.active && c != iccid)
      && (forall c :: c in g.active ==> g.active[c] == f.active[c])
      && (forall p :: p in g.workers <==> p in f.workers && !Answers(f, p, iccid))
      && (forall p :: Answers(f, p, iccid) ==> MadeAt(g, p)[f.workers[p] := WorkerAt(f, p)] == MadeAt(f, p)
                                               && MadeAt(g, p)[f.workers[p]].stopped)
  {
    match OwnerOf(f, iccid)
    case Some(p) =>
      OwnerIsUnique(f, p, iccid);
      var s := Stopped(f, p);
      assert forall c :: HeldAt(s, {p}, c) <==> c == iccid by {
        assert forall c :: Answers(s, p, c) <==> c == iccid;
      }
    case None =>
      assert forall p :: !Answers(f, p, iccid) by {
        forall p | Answers(f, p, iccid) ensures false {
          OwnerIsUnique(f, p, iccid);
        }
      }
  }

  ghost predicate Harmless(f: Fleet, e: Event) {
    e.Remove? ==> OwnerOf(f, e.iccid).Some? || !Starting(f, e.iccid)
  }

  lemma StepKeepsOwned(f: Fleet, e: Event)
    requires Owned(f) && Enabled(f, e) && Harmless(f, e)
    ensures Owned(Step(f, e))
  {
    hide Owned, Scanned;
    match e
    case Scan(valid) => ScanKeepsOwned(f, valid);
    case Register(t, iccid) => RegisterKeepsOwned(f, t, iccid);
    case Publish(t) => UpdateKeepsOwned(f, t, TheWorker(f, t).(modem := TheWorker(f, t).iccid));
    case Halt(t, reprobe) => HaltStepKeepsOwned(f, t, reprobe);
    case Remove(iccid) => RemoveKeepsOwned(f, iccid);
  }

  lemma HaltStepKeepsOwned(f: Fleet, t: Tag, reprobe: bool)
    requires Owned(f) && Exists(f, t)
    ensures Owned(Step(f, Halt(t, reprobe)))
  {
    UpdateKeepsOwned(f, t, TheWorker(f, t).(stopped := true, reprobe := TheWorker(f, t).reprobe || reprobe));
  }

  /** A run from an empty manager, with the fleet before and after every step. */
  ghost predicate Runs(events: seq<Event>, fleets: seq<Fleet>) {
    && |fleets| == |events| + 1 && fleets[0] == EMPTY_FLEET
    && forall n :: 0 <= n < |events| ==> Follows(fleets[n], events[n], fleets[n + 1])
  }

  ghost predicate Follows(f: Fleet, e: Event, g: Fleet) {
    Enabled(f, e) && Harmless(f, e) && g == Step(f, e)
  }

  /** Over every interleaving of scans, registrations, publications, stops and harmless removals, no
      two listed workers answer for one SIM, and where a request goes depends on no map order. */
  lemma {:induction false} OneWorkerPerSim(events: seq<Event>, fleets: seq<Fleet>, n: nat)
    requires Runs(events, fleets) && n < |fleets|
    ensures Owned(fleets[n])
    ensures forall p, q, iccid :: Answers(fleets[n], p, iccid) && Answers(fleets[n], q, iccid) ==> p == q
  {
    hide Step, Enabled, Harmless;
    if n > 0 {
      OneWorkerPerSim(events, fleets, n - 1);
      assert Follows(fleets[n - 1], events[n - 1], fleets[n]);
      StepKeepsOwned(fleets[n - 1], events[n - 1]);
    }
    forall p, q, iccid | Answers(fleets[n], p, iccid) && Answers(fleets[n], q, iccid) ensures p == q {
      OwnerIsUnique(fleets[n], p, iccid);
    }
  }

  // ----- Where it goes wrong -----

  /** A worker on this port that has not claimed a SIM. */
  ghost predicate Idle(f: Fleet, port: string) {
    Listed(f, port) && WorkerAt(f, port).iccid.None?
  }

  function TagAt(f: Fleet, port: string): Tag
    requires Listed(f, port)
  {
    Tag(port, f.workers[port])
  }

  lemma RegisterIdle(f: Fleet, port: string, iccid: string)
    requires Idle(f, port) && Admits(f, port, iccid)
    ensures var g := Step(f, Register(TagAt(f, port), iccid));
      && g.workers == f.workers && g.probed == f.probed && g.active == f.active[iccid := port]
      && Listed(g, port) && WorkerAt(g, port) == WorkerAt(f, port).(iccid := Some(iccid))
      && (forall p :: p != port && Listed(f, p) ==> Listed(g, p) && WorkerAt(g, p) == WorkerAt(f, p))
  {
  }

  lemma PublishListed(f: Fleet, port: string)
    requires Listed(f, port) && WorkerAt(f, port).iccid.Some?
    ensures var g := Step(f, Publish(TagAt(f, port)));
      && g.workers == f.workers && Answers(g, port, WorkerAt(f, port).iccid.value)
      && (forall p :: p != port && Listed(f, p) ==> Listed(g, p) && WorkerAt(g, p) == WorkerAt(f, p))
  {
  }

  /** A removal while worker a is starting lets worker b register the same SIM; then both answer. */
  lemma RemovalRace(f: Fleet, a: string, b: string, iccid: string) returns (g: Fleet)
    requires a != b && Idle(f, a) && Idle(f, b) && WorkerAt(f, a).modem.None? && iccid !in f.active
    requires forall p :: Listed(f, p) ==> WorkerAt(f, p).modem != Some(iccid)
    ensures var f1 := Step(f, Register(TagAt(f, a), iccid));
      var f2 := Step(f1, Remove(iccid));
      Listed(f2, b) && Enabled(f2, Register(TagAt(f2, b), iccid)) &&
      var f3 := Step(f2, Register(TagAt(f2, b), iccid));
      Listed(f3, a) && Enabled(f3, Publish(TagAt(f3, a))) &&
      var f4 := Step(f3, Publish(TagAt(f3, a)));
      Listed(f4, b) && Enabled(f4, Publish(TagAt(f4, b))) && g == Step(f4, Publish(TagAt(f4, b)))
    ensures Answers(g, a, iccid) && Answers(g, b, iccid)
  {
    RegisterIdle(f, a, iccid);
    var f1 := Step(f, Register(TagAt(f, a), iccid));
    var f2 := Step(f1, Remove(iccid));
    assert f2 == f1.(active := f1.active - {iccid});
    assert forall p :: Listed(f1, p) ==> Listed(f2, p) && WorkerAt(f2, p) == WorkerAt(f1, p);
    RegisterIdle(f2, b, iccid);
    var f3 := Step(f2, Register(TagAt(f2, b), iccid));
    PublishListed(f3, a);
    var f4 := Step(f3, Publish(TagAt(f3, a)));
    PublishListed(f4, b);
    g := Step(f4, Publish(TagAt(f4, b)));
  }

  /** The worker listed on the claim's port is the one that made it. */
  predicate IsBacked(f: Fleet, c: string) {
    c in f.active && Listed(f, f.active[c]) && WorkerAt(f, f.active[c]).iccid == Some(c)
  }

  /** Every claim belongs to a worker that is still listed. */
  ghost predicate Backed(f: Fleet) {
    forall c :: c in f.active ==> IsBacked(f, c)
  }

  /** A worker taken off the list leaves its claim behind exactly when it has not published its
      modem yet; nothing else releases that claim. */
  lemma RetireKeepsBacked(f: Fleet, port: string)
    requires Owned(f) && Backed(f) && port in f.workers
    ensures Backed(Retired(f, {port})) <==> WorkerAt(f, port).modem == WorkerAt(f, port).iccid
  {
    var g, w := Retired(f, {port}), WorkerAt(f, port);
    assert forall c :: HeldAt(f, {port}, c) <==> w.modem == Some(c);
    if w.modem == w.iccid {
      forall c | c in g.active ensures Listed(g, g.active[c]) && WorkerAt(g, g.active[c]).iccid == Some(c) {
        assert f.active[c] != port;
      }
    } else {
      assert w.iccid.value in g.active && g.active[w.iccid.value] == port;
    }
  }

  /** A registration is backed unless the claim is new and the worker is already off the list. */
  lemma RegisterKeepsBacked(f: Fleet, t: Tag, iccid: string)
    requires Owned(f) && Backed(f) && Enabled(f, Register(t, iccid))
    ensures Backed(Step(f, Register(t, iccid)))
      <==> iccid in f.active || (t.port in f.workers && f.workers[t.port] == t.round)
  {
    var g := Step(f, Register(t, iccid));
    RegisterLeaves(f, t, iccid);
    if iccid !in f.active {
      NewClaim(f, t, iccid);
    }
    hide Step, Owned, IsBacked;
    forall c | c in f.active ensures IsBacked(g, c) {
      OldClaim(f, t, iccid, c);
    }
  }

  lemma OldClaim(f: Fleet, t: Tag, iccid: string, c: string)
    requires Backed(f) && Enabled(f, Register(t, iccid)) && c in f.active
    ensures IsBacked(Step(f, Register(t, iccid)), c)
  {
    assert IsBacked(f, c);
    RegisterLeaves(f, t, iccid);
    ClaimIsTaken(f, t, c);
    hide Step;
  }

  lemma NewClaim(f: Fleet, t: Tag, iccid: string)
    requires Owned(f) && Enabled(f, Register(t, iccid)) && iccid !in f.active
    ensures IsBacked(Step(f, Register(t, iccid)), iccid) <==> t.port in f.workers && f.workers[t.port] == t.round
  {
    RegisterLeaves(f, t, iccid);
    hide Step;
  }

  lemma RegisterLeaves(f: Fleet, t: Tag, iccid: string)
    requires Enabled(f, Register(t, iccid))
    ensures var g := Step(f, Register(t, iccid));
      && g.active == (if iccid in f.active then f.active else f.active[iccid := t.port])
      && g.workers == f.workers && (forall p :: Listed(g, p) <==> Listed(f, p))
      && (forall p :: Listed(f, p) ==> Listed(g, p) && (Tag(p, f.workers[p]) != t ==> WorkerAt(g, p) == WorkerAt(f, p)))
      && (iccid !in f.active && Listed(g, t.port) ==>
            (WorkerAt(g, t.port).iccid == Some(iccid) <==>
               f.workers[t.port] == t.round || WorkerAt(f, t.port).iccid == Some(iccid)))
  {
  }

  lemma ClaimIsTaken(f: Fleet, t: Tag, c: string)
    requires Backed(f) && c in f.active && Exists(f, t) && TheWorker(f, t).iccid.None?
    ensures Tag(f.active[c], f.workers[f.active[c]]) != t
  {
  }

  /** A worker that the scan takes off the list has claimed a SIM and not published it. */
  ghost predicate Abandons(f: Fleet, valid: set<string>, port: string) {
    port in f.workers && Listed(f, port) && !Survives(f, port, valid) && WorkerAt(f, port).modem != WorkerAt(f, port).iccid
  }

  /** The claims a scan leaves are those no leaving worker had published. */
  lemma ScanClaims(f: Fleet, valid: set<string>)
    requires Owned(f)
    ensures var g := Scanned(f, valid);
      && (forall c :: c in g.active <==>
            c in f.active && !exists p :: p in f.workers && !Survives(f, p, valid) && Answers(f, p, c))
      && (forall c :: c in g.active ==> g.active[c] == f.active[c])
  {
    var gone := f.workers.Keys - valid;
    var h := Halted(f, gone);
    var present := Retired(h, gone).(probed := f.probed * valid);
    var ports := StoppedIn(present, present.workers.Keys);
    PresentAfterRemoval(f, valid);
    forall p, c ensures Answers(h, p, c) <==> Answers(f, p, c) {
    }
    forall p, c | p in present.workers ensures Answers(present, p, c) <==> Answers(f, p, c) {
    }
    forall p ensures p in ports <==> p in f.workers && p in valid && WorkerAt(f, p).stopped {
    }
    forall c ensures HeldAt(h, gone, c) || HeldAt(present, ports, c) <==>
      exists p :: p in f.workers && !Survives(f, p, valid) && Answers(f, p, c)
    {
      LeaversHold(f, valid, h, gone, present, ports, c);
    }
  }

  lemma LeaversHold(f: Fleet, valid: set<string>, h: Fleet, gone: set<string>, present: Fleet, ports: set<string>, c: string)
    requires gone == f.workers.Keys - valid && present.workers == f.workers - gone
    requires forall p :: p in f.workers ==> Listed(f, p)
    requires forall p :: Answers(h, p, c) <==> Answers(f, p, c)
    requires forall p :: p in present.workers ==> (Answers(present, p, c) <==> Answers(f, p, c))
    requires forall p :: p in ports <==> p in f.workers && p in valid && WorkerAt(f, p).stopped
    ensures HeldAt(h, gone, c) || HeldAt(present, ports, c) <==>
      exists p :: p in f.workers && !Survives(f, p, valid) && Answers(f, p, c)
  {
    forall p | p in gone && Answers(h, p, c) ensures p in f.workers && !Survives(f, p, valid) && Answers(f, p, c) {
    }
    forall p | p in ports && Answers(present, p, c) ensures p in f.workers && !Survives(f, p, valid) && Answers(f, p, c) {
      assert p in present.workers;
    }
    forall p | p in f.workers && !Survives(f, p, valid) && Answers(f, p, c)
      ensures (p in gone && Answers(h, p, c)) || (p in ports && Answers(present, p, c))
    {
      assert p in valid ==> p in present.workers;
    }
  }

  /** Nobody who leaves answers for c, so the scan keeps the claim on it. */
  ghost predicate Stays(f: Fleet, valid: set<string>, c: string) {
    c in f.active && !exists p :: p in f.workers && !Survives(f, p, valid) && Answers(f, p, c)
  }

  lemma ScannedClaim(f: Fleet, valid: set<string>, c: string)
    requires Owned(f) && Backed(f)
    ensures var g := Scanned(f, valid);
      && (c in g.active <==> Stays(f, valid, c))
      && (c in g.active ==> (IsBacked(g, c) <==> Survives(f, f.active[c], valid)))
  {
    ScanClaims(f, valid);
    ScanOutcome(f, valid);
    ScanKeepsOwned(f, valid);
    hide Scanned;
    var g := Scanned(f, valid);
    if c in g.active {
      assert IsBacked(f, c);
      var p := f.active[c];
      assert g.active[c] == p;
      assert Listed(g, p) ==> p in g.workers;
    }
  }

  lemma LeftBehind(f: Fleet, valid: set<string>, c: string)
    requires Owned(f) && Backed(f) && Stays(f, valid, c) && !Survives(f, f.active[c], valid)
    ensures Abandons(f, valid, f.active[c])
  {
    assert IsBacked(f, c) && !Answers(f, f.active[c], c);
  }

  lemma AbandonedStays(f: Fleet, valid: set<string>, port: string) returns (c: string)
    requires Owned(f) && Abandons(f, valid, port)
    ensures Stays(f, valid, c) && !Survives(f, f.active[c], valid)
  {
    c := WorkerAt(f, port).iccid.value;
    NobodyHolds(f, port, c);
  }

  /** A scan leaves no claim behind exactly when no worker it takes off the list abandons one. */
  lemma ScanKeepsBacked(f: Fleet, valid: set<string>)
    requires Owned(f) && Backed(f)
    ensures Backed(Scanned(f, valid)) <==> forall p :: !Abandons(f, valid, p)
  {
    var g := Scanned(f, valid);
    forall c
      ensures c in g.active <==> Stays(f, valid, c)
      ensures c in g.active ==> (IsBacked(g, c) <==> Survives(f, f.active[c], valid))
    {
      ScannedClaim(f, valid, c);
    }
    hide Scanned, Owned, Survives, Abandons, Stays, IsBacked;
    forall p | Abandons(f, valid, p) ensures !Backed(g) {
      var c := AbandonedStays(f, valid, p);
    }
    forall c | c in g.active && !Survives(f, f.active[c], valid) ensures Abandons(f, valid, f.active[c]) {
      LeftBehind(f, valid, c);
    }
  }

  /** The step leaves no claim behind. */
  ghost predicate Tidy(f: Fleet, e: Event) {
    match e
    case Scan(valid) => forall p :: !Abandons(f, valid, p)
    case Register(t, iccid) => iccid in f.active || (t.port in f.workers && f.workers[t.port] == t.round)
    case _ => true
  }

  lemma UpdateKeepsBacked(f: Fleet, t: Tag, w: Worker)
    requires Backed(f) && Exists(f, t) && w.iccid == TheWorker(f, t).iccid
    ensures Backed(Update(f, t, w))
  {
    var g := Update(f, t, w);
    assert forall p :: Listed(f, p) ==> Listed(g, p) && WorkerAt(g, p).iccid == WorkerAt(f, p).iccid;
  }

  lemma RemoveKeepsBacked(f: Fleet, iccid: string)
    requires Owned(f) && Backed(f)
    ensures Backed(Removed(f, iccid))
  {
    match OwnerOf(f, iccid)
    case Some(p) =>
      var w := WorkerAt(f, p).(stopped := true);
      UpdateKeepsBacked(f, TagAt(f, p), w);
      UpdateKeepsOwned(f, TagAt(f, p), w);
      RetireKeepsBacked(Stopped(f, p), p);
    case None =>
      var g := Removed(f, iccid);
      assert forall p :: Listed(f, p) ==> Listed(g, p) && WorkerAt(g, p) == WorkerAt(f, p);
  }

  lemma StepKeepsBacked(f: Fleet, e: Event)
    requires Owned(f) && Backed(f) && Enabled(f, e)
    ensures Backed(Step(f, e)) <==> Tidy(f, e)
  {
    hide Owned, Backed, Scanned, Removed, Abandons;
    match e
    case Scan(valid) => ScanKeepsBacked(f, valid);
    case Register(t, iccid) => RegisterKeepsBacked(f, t, iccid);
    case Publish(t) => UpdateKeepsBacked(f, t, TheWorker(f, t).(modem := TheWorker(f, t).iccid));
    case Halt(t, reprobe) =>
      UpdateKeepsBacked(f, t, TheWorker(f, t).(stopped := true, reprobe := TheWorker(f, t).reprobe || reprobe));
    case Remove(iccid) => RemoveKeepsBacked(f, iccid);
  }

  lemma {:induction false} TidyRun(events: seq<Event>, fleets: seq<Fleet>, n: nat)
    requires Runs(events, fleets) && n < |fleets|
    requires forall k :: 0 <= k < n ==> Tidy(fleets[k], events[k])
    ensures Backed(fleets[n])
  {
    hide Step, Enabled, Harmless, Tidy, Owned;
    if n > 0 {
      TidyRun(events, fleets, n - 1);
      OneWorkerPerSim(events, fleets, n - 1);
      assert Follows(fleets[n - 1], events[n - 1], fleets[n]);
      StepKeepsBacked(fleets[n - 1], events[n - 1]);
    }
  }

  /** No claim is ever without a listed owner exactly when no scan takes a worker off the list
      between its claim and its publication, and no worker makes a new claim after that. */
  lemma BackedThroughout(events: seq<Event>, fleets: seq<Fleet>)
    requires Runs(events, fleets)
    ensures (forall n :: 0 <= n < |fleets| ==> Backed(fleets[n]))
      <==> (forall n :: 0 <= n < |events| ==> Tidy(fleets[n], events[n]))
  {
    hide Step, Enabled, Harmless, Tidy, Owned, Backed;
    if forall n :: 0 <= n < |events| ==> Tidy(fleets[n], events[n]) {
      forall n | 0 <= n < |fleets| ensures Backed(fleets[n]) {
        TidyRun(events, fleets, n);
      }
    }
    if forall n :: 0 <= n < |fleets| ==> Backed(fleets[n]) {
      forall n | 0 <= n < |events| ensures Tidy(fleets[n], events[n]) {
        OneWorkerPerSim(events, fleets, n);
        assert Follows(fleets[n], events[n], fleets[n + 1]);
        StepKeepsBacked(fleets[n], events[n]);
      }
    }
  }

  /** So a SIM moved away from a port that vanished in mid-start is refused everywhere else. */
  lemma StaleClaim(f: Fleet, a: string, b: string, iccid: string, valid: set<string>)
    requires Owned(f) && a != b && Idle(f, a) && WorkerAt(f, a).modem.None? && iccid !in f.active && a !in valid
    ensures var g := Step(Step(f, Register(TagAt(f, a), iccid)), Scan(valid));
      a !in g.workers && !Admits(g, b, iccid)
  {
    RegisterIdle(f, a, iccid);
    var f1 := Step(f, Register(TagAt(f, a), iccid));
    RegisterKeepsOwned(f, TagAt(f, a), iccid);
    ScanKeepsClaim(f1, a, iccid, valid);
  }

  lemma ScanKeepsClaim(f: Fleet, a: string, iccid: string, valid: set<string>)
    requires Owned(f) && a in f.workers && a !in valid
    requires WorkerAt(f, a).iccid == Some(iccid) && WorkerAt(f, a).modem.None?
    ensures var g := Scanned(f, valid); a !in g.workers && iccid in g.active && g.active[iccid] == a
  {
    var gone := f.workers.Keys - valid;
    NobodyHolds(f, a, iccid);
    var h := Halted(f, gone);
    HaltKeepsOwned(f, gone);
    NobodyHolds(h, a, iccid);
    var present := Retired(h, gone).(probed := f.probed * valid);
    assert a !in present.workers && iccid in present.active;
    assert forall p :: !Answers(present, p, iccid);
    assert !HeldAt(present, StoppedIn(present, present.workers.Keys), iccid);
  }

  lemma NobodyHolds(f: Fleet, a: string, iccid: string)
    requires Owned(f) && a in f.workers && WorkerAt(f, a).iccid == Some(iccid) && WorkerAt(f, a).modem.None?
    ensures forall p :: !Answers(f, p, iccid)
  {
  }
}
