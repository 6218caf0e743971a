/** internal/keepalive and internal/repository/keepalive_repo.go: which SIM sends a keep-alive
    message, to which SIM, and how often. Callers gather their items without a lock, so an item
    may be arbitrarily out of date by the time RunOne looks at it. */
module Keepalive {
  import opened Basics
  import opened Sorting

  datatype Status = Sent | Failed | Skipped
  datatype Run = Run(iccid: string, target: string, status: Status, ranAt: int)

  datatype Item = Item(
    iccid: string, phone: string, enabled: bool, online: bool, registered: bool, inBay: bool,
    operator: string, lastActivity: Option<int>, firstSeen: Option<int>, intervalDays: int)

  datatype Candidate = Candidate(iccid: string, phone: string, operator: string, online: bool, targetCount: nat)

  // ----- Choosing a target -----

  /** Go's order on strings: byte by byte, a prefix first. */
  predicate LexLess(a: string, b: string) {
    b != [] && (a == [] || a[0] < b[0] || (a[0] == b[0] && LexLess(a[1..], b[1..])))
  }

  lemma {:induction false} LexConnected(a: string, b: string)
    ensures a == b || LexLess(a, b) || LexLess(b, a)
    ensures !(LexLess(a, b) && LexLess(b, a)) && (a == b ==> !LexLess(a, b))
  {
    if a != [] && b != [] {
      LexConnected(a[1..], b[1..]);
      if a[0] == b[0] && a[1..] == b[1..] {
        assert a == [a[0]] + a[1..] == [b[0]] + b[1..] == b;
      }
    }
  }

  lemma {:induction false} LexTransitive(a: string, b: string, c: string)
    requires LexLess(a, b) && LexLess(b, c)
    ensures LexLess(a, c)
  {
    if a != [] && a[0] == b[0] == c[0] {
      LexTransitive(a[1..], b[1..], c[1..]);
    }
  }

  /** Which is to say: a proper prefix, or smaller at the first difference. */
  lemma {:induction false} LexMeans(a: string, b: string)
    ensures LexLess(a, b) <==>
      (|a| < |b| && a == b[..|a|]) || (exists k: nat :: k < |a| && k < |b| && a[..k] == b[..k] && a[k] < b[k])
  {
    if a != [] && b != [] && a[0] == b[0] {
      var x, y := a[1..], b[1..];
      LexMeans(x, y);
      assert |a| < |b| && a == b[..|a|] <==> |x| < |y| && x == y[..|x|] by {
        assert a == [a[0]] + x && b == [b[0]] + y;
        if |x| < |y| && x == y[..|x|] {
          assert b[..|a|] == [b[0]] + y[..|x|];
        }
        if |a| < |b| && a == b[..|a|] {
          assert x == b[..|a|][1..] == y[..|x|];
        }
      }
      forall k: nat | k < |x| && k < |y| && x[..k] == y[..k] && x[k] < y[k]
        ensures a[..k + 1] == b[..k + 1] && a[k + 1] < b[k + 1]
      {
        assert a[..k + 1] == [a[0]] + x[..k] && b[..k + 1] == [b[0]] + y[..k];
      }
      forall k: nat | k < |a| && k < |b| && a[..k] == b[..k] && a[k] < b[k]
        ensures k > 0 && x[..k - 1] == y[..k - 1] && x[k - 1] < y[k - 1]
      {
        assert k > 0 ==> x[..k - 1] == a[..k][1..] && y[..k - 1] == b[..k][1..];
      }
    } else if a != [] && b != [] {
      assert a[..0] == b[..0];
      assert forall k: nat :: 0 < k <= |a| ==> a[..k][0] == a[0];
      assert forall k: nat :: 0 < k <= |b| ==> b[..k][0] == b[0];
    }
  }

  /** Online first, then the least used, then the smaller ICCID. */
  predicate Before(a: Candidate, b: Candidate) {
    if a.online != b.online then a.online
    else if a.targetCount != b.targetCount then a.targetCount < b.targetCount
    else LexLess(a.iccid, b.iccid)
  }

  lemma BeforeIsStrictWeakOrder()
    ensures StrictWeakOrder(Before)
  {
    forall x, y, z: Candidate
      ensures !Before(x, x)
      ensures Before(x, y) && Before(y, z) ==> Before(x, z)
      ensures !Before(x, y) && !Before(y, z) ==> !Before(x, z)
    {
      LexConnected(x.iccid, x.iccid);
      LexConnected(x.iccid, y.iccid);
      LexConnected(y.iccid, z.iccid);
      LexConnected(x.iccid, z.iccid);
      if LexLess(x.iccid, y.iccid) && LexLess(y.iccid, z.iccid) {
        LexTransitive(x.iccid, y.iccid, z.iccid);
      }
      if LexLess(z.iccid, y.iccid) && LexLess(y.iccid, x.iccid) {
        LexTransitive(z.iccid, y.iccid, x.iccid);
      }
    }
  }

  predicate Reachable(src: Candidate, c: Candidate) {
    c.iccid != src.iccid && c.phone != ""
  }

  predicate SameNetwork(src: Candidate, c: Candidate) {
    c.operator != "" && c.operator == src.operator
  }

  /** Candidates the choice is made from: other SIMs with a number, on the sender's own network
      if there is any such SIM. */
  ghost predicate Eligible(src: Candidate, all: seq<Candidate>, c: Candidate) {
    && c in all && Reachable(src, c)
    && ((exists d :: d in all && Reachable(src, d) && SameNetwork(src, d)) ==> SameNetwork(src, c))
  }

  ghost predicate IsPick(src: Candidate, all: seq<Candidate>, target: Option<Candidate>) {
    match target
    case None => forall c :: !Eligible(src, all, c)
    case Some(t) => Eligible(src, all, t) && forall c :: Eligible(src, all, c) ==> !Before(c, t)
  }

  method PickTarget(src: Candidate, all: seq<Candidate>) returns (target: Option<Candidate>)
    ensures IsPick(src, all, target)
  {
    var pool, same := [], [];
    for i := 0 to |all|
      invariant forall c :: c in pool <==> c in all[..i] && Reachable(src, c)
      invariant forall c :: c in same <==> c in all[..i] && Reachable(src, c) && SameNetwork(src, c)
    {
      var c := all[i];
      assert all[..i + 1] == all[..i] + [c];
      if c.iccid == src.iccid || c.phone == "" {
        continue;
      }
      pool := pool + [c];
      if c.operator != "" && c.operator == src.operator {
        same := same + [c];
      }
    }
    assert all[..|all|] == all;
    if |same| > 0 {
      assert same[0] in same;
      pool := same;
    }
    assert forall c :: c in pool <==> Eligible(src, all, c);
    if |pool| == 0 {
      return None;
    }
    BeforeIsStrictWeakOrder();
    var sorted := SortSlice(pool, Before);
    assert forall c :: c in sorted <==> c in multiset(sorted);
    assert forall c :: c in pool <==> c in multiset(pool);
    assert sorted[0] in sorted;
    target := Some(sorted[0]);
  }

  ghost predicate DistinctSims(all: seq<Candidate>) {
    forall i, j :: 0 <= i < j < |all| ==> all[i].iccid != all[j].iccid
  }

  /** The choice depends on which candidates there are, not on the order they come in. */
  lemma PickIgnoresOrder(src: Candidate, all: seq<Candidate>, other: seq<Candidate>,
                         t: Option<Candidate>, u: Option<Candidate>)
    requires DistinctSims(all) && multiset(all) == multiset(other)
    requires IsPick(src, all, t) && IsPick(src, other, u)
    ensures t == u
  {
    forall c ensures c in all <==> c in other {
      assert c in all <==> c in multiset(all);
      assert c in other <==> c in multiset(other);
    }
    assert forall c :: Eligible(src, all, c) <==> Eligible(src, other, c);
    if t.Some? && u.Some? {
      LexConnected(t.value.iccid, u.value.iccid);
      assert t.value.iccid == u.value.iccid;
    }
  }

  // ----- Queries over the run log -----

  /** Calendar months and the 30-day window depend on the server's time zone; they are parameters.
      month names the calendar month an instant falls in, windowStart is the instant 30 calendar
      days earlier. */
  datatype Config = Config(maxPerMonth: int, month: int -> int, windowStart: int -> int)

  function SentInMonth(log: seq<Run>, cfg: Config, iccid: string, m: int): nat {
    if log == [] then 0
    else SentInMonth(log[..|log| - 1], cfg, iccid, m)
         + (var r := log[|log| - 1]; if r.iccid == iccid && r.status == Sent && cfg.month(r.ranAt) == m then 1 else 0)
  }

  function TargetCount(log: seq<Run>, since: int, target: string): nat {
    if log == [] then 0
    else TargetCount(log[..|log| - 1], since, target)
         + (var r := log[|log| - 1];
            if r.status == Sent && r.ranAt >= since && r.target != "" && r.target == target then 1 else 0)
  }

  ghost predicate IsLastSent(log: seq<Run>, iccid: string, last: Option<int>) {
    match last
    case None => forall r :: r in log && r.iccid == iccid ==> r.status != Sent
    case Some(at) =>
      && (exists r :: r in log && r.iccid == iccid && r.status == Sent && r.ranAt == at)
      && (forall r :: r in log && r.iccid == iccid && r.status == Sent ==> r.ranAt <= at)
  }

  predicate SentIn(r: Run, cfg: Config, iccid: string, m: int) {
    r.iccid == iccid && r.status == Sent && cfg.month(r.ranAt) == m
  }

  predicate AimedSince(r: Run, since: int, target: string) {
    r.status == Sent && r.ranAt >= since && r.target == target != ""
  }

  lemma OnePlaceMore(places: set<int>, all: set<int>, n: int, hit: bool)
    requires n !in places && all == places + (if hit then {n} else {})
    ensures |all| == |places| + if hit then 1 else 0
  {
  }

  /** SentInMonth counts the SIM's sent runs of the month. */
  lemma {:induction false} SentInMonthCounts(log: seq<Run>, cfg: Config, iccid: string, m: int)
    ensures SentInMonth(log, cfg, iccid, m) == |set i | 0 <= i < |log| && SentIn(log[i], cfg, iccid, m)|
  {
    var all := set i | 0 <= i < |log| && SentIn(log[i], cfg, iccid, m);
    if log == [] {
      assert all == {};
    } else {
      var n := |log| - 1;
      var init := log[..n];
      SentInMonthCounts(init, cfg, iccid, m);
      var hit := SentIn(log[n], cfg, iccid, m);
      assert SentInMonth(log, cfg, iccid, m) == SentInMonth(init, cfg, iccid, m) + if hit then 1 else 0;
      hide SentIn, SentInMonth;
      OnePlaceMore((set i | 0 <= i < |init| && SentIn(init[i], cfg, iccid, m)), all, n, hit);
    }
  }

  lemma TargetAppend(log: seq<Run>, since: int, target: string)
    requires log != []
    ensures var n := |log| - 1;
      TargetCount(log, since, target) == TargetCount(log[..n], since, target) + if AimedSince(log[n], since, target) then 1 else 0
  {
  }

  /** TargetCount counts the sent runs to the target that are not older than the window. */
  lemma {:induction false} TargetCountCounts(log: seq<Run>, since: int, target: string)
    ensures TargetCount(log, since, target) == |set i | 0 <= i < |log| && AimedSince(log[i], since, target)|
  {
    var all := set i | 0 <= i < |log| && AimedSince(log[i], since, target);
    if log == [] {
      assert all == {};
    } else {
      var n := |log| - 1;
      var init := log[..n];
      TargetCountCounts(init, since, target);
      var hit := AimedSince(log[n], since, target);
      TargetAppend(log, since, target);
      hide AimedSince, TargetCount;
      OnePlaceMore((set i | 0 <= i < |init| && AimedSince(init[i], since, target)), all, n, hit);
    }
  }

  method SentCountThisMonth(log: seq<Run>, cfg: Config, iccid: string, now: int) returns (n: nat)
    ensures n == SentInMonth(log, cfg, iccid, cfg.month(now))
  {
    n := 0;
    for i := 0 to |log|
      invariant n == SentInMonth(log[..i], cfg, iccid, cfg.month(now))
    {
      assert log[..i + 1][..i] == log[..i];
      var r := log[i];
      if r.iccid == iccid && r.status == Sent && cfg.month(r.ranAt) == cfg.month(now) {
        n := n + 1;
      }
    }
    assert log[..|log|] == log;
  }

  method LastSentAt(log: seq<Run>, iccid: string) returns (last: Option<int>)
    ensures IsLastSent(log, iccid, last)
  {
    last := None;
    for i := 0 to |log|
      invariant IsLastSent(log[..i], iccid, last)
    {
      var r := log[i];
      assert log[..i + 1] == log[..i] + [r];
      if r.iccid == iccid && r.status == Sent && (last.None? || r.ranAt > last.value) {
        assert r in log[..i + 1];
        last := Some(r.ranAt);
      }
    }
    assert log[..|log|] == log;
  }

  /** The counts as a map without zero entries, the way the grouped query returns them. */
  method TargetCounts(log: seq<Run>, since: int) returns (counts: map<string, nat>)
    ensures forall c :: (if c in counts then counts[c] else 0) == TargetCount(log, since, c)
  {
    counts := map[];
    for i := 0 to |log|
      invariant forall c :: (if c in counts then counts[c] else 0) == TargetCount(log[..i], since, c)
    {
      assert log[..i + 1][..i] == log[..i];
      var r := log[i];
      if r.status == Sent && r.ranAt >= since && r.target != "" {
        counts := counts[r.target := (if r.target in counts then counts[r.target] else 0) + 1];
      }
    }
    assert log[..|log|] == log;
  }

  /** isDue: time.Duration arithmetic wraps, time.Time.Sub saturates. */
  predicate IsDue(now: int, lastActivity: Option<int>, firstSeen: Option<int>, intervalDays: int) {
    var ref := if lastActivity.Some? then lastActivity else firstSeen;
    ref.Some? && TimeSub(now, ref.value) >= Wrap64(intervalDays * DAY)
  }

  /** The check on an item as collected, outside the lock. */
  predicate DueAt(it: Item, now: int) {
    IsDue(now, it.lastActivity, it.firstSeen, it.intervalDays)
  }

  // ----- One run -----

  /** How an attempt to send ends: the network took nothing; it took the message, or some of its
      parts, but the worker reported an error (the confirmation came too late, a later part failed);
      or it took all of it and the worker reported success. */
  datatype Delivery = NotTaken | Unreported | Reported

  /** Everything a call of runOne depends on besides the log: the caller's possibly stale view,
      the clock, and how the outside world answers. */
  datatype Call = Call(it: Item, all: seq<Item>, force: bool, now: int,
                       readOk: bool, renderOk: bool, delivery: Delivery, addOk: bool,
                       partial: Option<map<string, nat>>) // counts read before their query failed

  function CandidateOf(it: Item, count: nat): Candidate {
    Candidate(it.iccid, it.phone, it.operator, it.online, count)
  }

  /** The count a candidate is given: over the last 30 days or, when the query fails, whatever it
      had returned by then. */
  function CountFor(cfg: Config, log: seq<Run>, now: int, partial: Option<map<string, nat>>, iccid: string): nat {
    match partial
    case None => TargetCount(log, cfg.windowStart(now), iccid)
    case Some(counts) => if iccid in counts then counts[iccid] else 0
  }

  /** SIMs in the tray, with their counts. */
  function Candidates(cfg: Config, log: seq<Run>, all: seq<Item>, now: int,
                      partial: Option<map<string, nat>>): seq<Candidate>
  {
    if all == [] then []
    else
      var rest := Candidates(cfg, log, all[..|all| - 1], now, partial);
      var it := all[|all| - 1];
      if it.inBay then rest + [CandidateOf(it, CountFor(cfg, log, now, partial, it.iccid))] else rest
  }

  /** The later of the caller's value and the log's. */
  function Freshest(stale: Option<int>, last: Option<int>): Option<int> {
    if last.Some? && (stale.None? || last.value > stale.value) then last else stale
  }

  ghost predicate DueNow(log: seq<Run>, call: Call) {
    exists last ::
      && IsLastSent(log, call.it.iccid, last)
      && IsDue(call.now, Freshest(call.it.lastActivity, last), call.it.firstSeen, call.it.intervalDays)
  }

  /** The run the call means to record. */
  ghost predicate Means(cfg: Config, log: seq<Run>, call: Call, run: Run) {
    var src := CandidateOf(call.it, 0);
    && run.iccid == call.it.iccid && run.ranAt == call.now
    && (call.force || DueNow(log, call))
    && if SentInMonth(log, cfg, run.iccid, cfg.month(call.now)) >= cfg.maxPerMonth then
         run.status == Skipped && run.target == ""
       else exists target ::
         && IsPick(src, Candidates(cfg, log, call.all, call.now, call.partial), target)
         && if target.None? then run.status == Skipped && run.target == ""
            else if !call.renderOk then run.status == Failed && run.target == ""
            else run.target == target.value.iccid && run.status == if call.delivery == Reported then Sent else Failed
  }

  /** The call gets as far as SendSMS. */
  ghost predicate Tries(cfg: Config, log: seq<Run>, call: Call) {
    && call.readOk && (call.force || DueNow(log, call)) && call.renderOk
    && SentInMonth(log, cfg, call.it.iccid, cfg.month(call.now)) < cfg.maxPerMonth
    && exists t :: IsPick(CandidateOf(call.it, 0), Candidates(cfg, log, call.all, call.now, call.partial), Some(t))
  }

  /** The call puts something on the air, whatever is reported or logged of it. */
  ghost predicate Airs(cfg: Config, log: seq<Run>, call: Call) {
    Tries(cfg, log, call) && call.delivery != NotTaken
  }

  /** The run log, every message the network took (as the sent run it should have been logged as),
      and those of them that the log does not show as sent. */
  datatype State = State(log: seq<Run>, aired: seq<Run>, lost: seq<Run>)

  const START := State([], [], [])

  /** One call: nothing happens, or the intended run is appended to the log. A message the network
      took is on the air whatever the worker reported and whether or not the log could be written. */
  ghost predicate Does(cfg: Config, s: State, call: Call, s': State, run: Option<Run>) {
    if !call.readOk || !(call.force || DueNow(s.log, call)) then s' == s && run == None
    else exists r ::
      && Means(cfg, s.log, call, r)
      && s'.log == (if call.addOk then s.log + [r] else s.log)
      && s'.aired == (if Airs(cfg, s.log, call) then s.aired + [r.(status := Sent)] else s.aired)
      && s'.lost == (if Airs(cfg, s.log, call) && !(call.delivery == Reported && call.addOk)
                     then s.lost + [r.(status := Sent)] else s.lost)
      && run == (if call.addOk then Some(r) else None)
  }

  lemma NoneOrSome(src: Candidate, all: seq<Candidate>, target: Option<Candidate>)
    requires IsPick(src, all, target)
    ensures target.Some? <==> exists t :: IsPick(src, all, Some(t))
  {
  }

  lemma LastSentUnique(log: seq<Run>, iccid: string, a: Option<int>, b: Option<int>)
    requires IsLastSent(log, iccid, a) && IsLastSent(log, iccid, b)
    ensures a == b
  {
  }

  /** The calls a scheduler's round makes: items enabled, online, registered and due when looked at. */
  function Chosen(calls: seq<Call>, checkedAt: seq<int>): seq<Call>
    requires |calls| <= |checkedAt|
  {
    if calls == [] then []
    else
      var n := |calls| - 1;
      var it := calls[n].it;
      Chosen(calls[..n], checkedAt)
      + if it.enabled && it.online && it.registered && IsDue(checkedAt[n], it.lastActivity, it.firstSeen, it.intervalDays)
        then [calls[n]] else []
  }

  /** The item passes all four tests of the round. */
  predicate Passes(it: Item, now: int) {
    it.enabled && it.online && it.registered && DueAt(it, now)
  }

  /** places picks out of calls exactly those whose item passes, in their order. */
  ghost predicate PicksOut(places: seq<nat>, chosen: seq<Call>, calls: seq<Call>, checkedAt: seq<int>)
    requires |calls| <= |checkedAt|
  {
    && |places| == |chosen|
    && (forall i, j :: 0 <= i < j < |places| ==> places[i] < places[j])
    && (forall i :: 0 <= i < |places| ==> places[i] < |calls| && chosen[i] == calls[places[i]])
    && (forall n: nat :: n < |calls| ==> (n in places <==> Passes(calls[n].it, checkedAt[n])))
  }

  /** Exactly the calls whose item passes are made, in their order. */
  lemma {:induction false} ChosenExactly(calls: seq<Call>, checkedAt: seq<int>) returns (places: seq<nat>)
    requires |calls| <= |checkedAt|
    ensures PicksOut(places, Chosen(calls, checkedAt), calls, checkedAt)
    decreases |calls|
  {
    places := [];
    if calls != [] {
      ChosenOneMore(calls, checkedAt);
      var n := |calls| - 1;
      places := ChosenExactly(calls[..n], checkedAt);
      hide Chosen, Passes, PicksOut;
      var chosen := Chosen(calls[..n], checkedAt);
      if Passes(calls[n].it, checkedAt[n]) {
        PicksLast(places, chosen, calls, checkedAt);
        places := places + [n];
      } else {
        SkipsLast(places, chosen, calls, checkedAt);
        assert chosen + [] == chosen;
      }
    }
  }

  lemma PicksLast(places: seq<nat>, chosen: seq<Call>, calls: seq<Call>, checkedAt: seq<int>)
    requires 0 < |calls| <= |checkedAt| && PicksOut(places, chosen, calls[..|calls| - 1], checkedAt)
    requires Passes(calls[|calls| - 1].it, checkedAt[|calls| - 1])
    ensures PicksOut(places + [|calls| - 1], chosen + [calls[|calls| - 1]], calls, checkedAt)
  {
    hide Passes;
    var n := |calls| - 1;
    var more := AddPlace(places, n);
    assert forall i :: 0 <= i < |places| ==> calls[..n][places[i]] == calls[places[i]];
    assert forall k: nat :: k < n ==> calls[..n][k] == calls[k];
  }

  lemma SkipsLast(places: seq<nat>, chosen: seq<Call>, calls: seq<Call>, checkedAt: seq<int>)
    requires 0 < |calls| <= |checkedAt| && PicksOut(places, chosen, calls[..|calls| - 1], checkedAt)
    requires !Passes(calls[|calls| - 1].it, checkedAt[|calls| - 1])
    ensures PicksOut(places, chosen, calls, checkedAt)
  {
    hide Passes;
    var n := |calls| - 1;
    assert forall i :: 0 <= i < |places| ==> calls[..n][places[i]] == calls[places[i]];
    assert forall k: nat :: k < n ==> calls[..n][k] == calls[k];
    assert forall k :: k in places ==> k < n;
  }

  lemma AddPlace(init: seq<nat>, n: nat) returns (places: seq<nat>)
    ensures places == init + [n] && forall k :: k in places <==> k in init || k == n
  {
    places := init + [n];
    assert places[|init|] == n;
  }

  lemma ChosenOneMore(calls: seq<Call>, checkedAt: seq<int>)
    requires 0 < |calls| <= |checkedAt|
    ensures var n := |calls| - 1;
      Chosen(calls, checkedAt) == Chosen(calls[..n], checkedAt) + if Passes(calls[n].it, checkedAt[n]) then [calls[n]] else []
  {
    hide IsDue;
  }

  lemma DueByLastSent(log: seq<Run>, call: Call, last: Option<int>)
    requires IsLastSent(log, call.it.iccid, last)
    ensures DueNow(log, call) <==>
      IsDue(call.now, Freshest(call.it.lastActivity, last), call.it.firstSeen, call.it.intervalDays)
  {
    forall other | IsLastSent(log, call.it.iccid, other) ensures other == last {
      LastSentUnique(log, call.it.iccid, other, last);
    }
  }

  datatype Answer = Disabled | NotFound | NotEnabled | NotDue | Ran(run: Option<Run>)

  function FirstOf(items: seq<Item>, iccid: string): Option<Item> {
    if items == [] then None else if items[0].iccid == iccid then Some(items[0]) else FirstOf(items[1..], iccid)
  }

  predicate MayRun(it: Item, force: bool, checkedAt: int) {
    it.enabled && (force || IsDue(checkedAt, it.lastActivity, it.firstSeen, it.intervalDays))
  }

  class Service {
    const cfg: Config
    var log: seq<Run>
    ghost var aired: seq<Run>
    ghost var lost: seq<Run>

    constructor (cfg: Config, log: seq<Run>, ghost aired: seq<Run>, ghost lost: seq<Run>)
      ensures this.cfg == cfg && View() == State(log, aired, lost)
    {
      this.cfg, this.log, this.aired, this.lost := cfg, log, aired, lost;
    }

    ghost function View(): State
      reads this
    {
      State(log, aired, lost)
    }

    method GatherCandidates(all: seq<Item>, now: int, partial: Option<map<string, nat>>) returns (out: seq<Candidate>)
      ensures out == Candidates(cfg, log, all, now, partial)
    {
      var counts;
      if partial.Some? {
        counts := partial.value; // the failure is logged and the run goes on
      } else {
        counts := TargetCounts(log, cfg.windowStart(now));
      }
      out := [];
      for i := 0 to |all|
        invariant out == Candidates(cfg, log, all[..i], now, partial)
      {
        assert all[..i + 1][..i] == all[..i];
        var it := all[i];
        if !it.inBay {
          continue;
        }
        out := out + [CandidateOf(it, if it.iccid in counts then counts[it.iccid] else 0)];
      }
      assert all[..|all|] == all;
    }

    method RunOne(call: Call) returns (run: Option<Run>)
      modifies this
      ensures Does(cfg, old(View()), call, View(), run)
    {
      hide IsPick, Candidates, IsDue, IsLastSent, SentInMonth;
      var it := call.it;
      if !call.readOk {
        return None;
      }
      var sentThisMonth := SentCountThisMonth(log, cfg, it.iccid, call.now);
      if !call.force {
        var last := LastSentAt(log, it.iccid);
        var activity := it.lastActivity;
        if last.Some? && (activity.None? || last.value > activity.value) {
          activity := last;
        }
        DueByLastSent(log, call, last);
        if !IsDue(call.now, activity, it.firstSeen, it.intervalDays) {
          return None;
        }
      }
      var r := Run(it.iccid, "", Skipped, call.now);
      ghost var airs := false;
      if sentThisMonth < cfg.maxPerMonth {
        var candidates := GatherCandidates(call.all, call.now, call.partial);
        var target := PickTarget(CandidateOf(it, 0), candidates);
        NoneOrSome(CandidateOf(it, 0), candidates, target);
        if target.Some? {
          if !call.renderOk {
            r := r.(status := Failed);
          } else {
            r := r.(target := target.value.iccid, status := if call.delivery == Reported then Sent else Failed);
            airs := call.delivery != NotTaken;
          }
        }
      }
      assert Means(cfg, log, call, r);
      assert airs == Airs(cfg, log, call);
      if airs {
        aired := aired + [r.(status := Sent)];
        lost := if call.delivery == Reported && call.addOk then lost else lost + [r.(status := Sent)];
      }
      if call.addOk {
        log := log + [r];
        run := Some(r);
      } else {
        run := None;
      }
    }

    /** A user's "run now" (RunOne in the program), over items collected beforehand: the check
        outside the lock may be stale, the one in RunOne above decides. */
    method RunSim(enabled: bool, items: seq<Item>, iccid: string, checkedAt: int, call: Call) returns (answer: Answer)
      requires call.all == items
      modifies this
      ensures var first := FirstOf(items, iccid);
        answer.Ran? <==> enabled && first.Some? && MayRun(first.value, call.force, checkedAt)
      ensures answer.Ran? ==>
        var own := call.(it := FirstOf(items, iccid).value);
        Does(cfg, old(View()), own, View(), answer.run)
      ensures !answer.Ran? ==> View() == old(View())
      ensures answer == Disabled <==> !enabled
      ensures answer == NotFound <==> enabled && forall it :: it in items ==> it.iccid != iccid
      ensures answer == NotDue <==>
        && enabled && FirstOf(items, iccid).Some? && FirstOf(items, iccid).value.enabled && !call.force
        && !DueAt(FirstOf(items, iccid).value, checkedAt)
      ensures answer == NotEnabled <==> enabled && FirstOf(items, iccid).Some? && !FirstOf(items, iccid).value.enabled
    {
      if !enabled {
        return Disabled;
      }
      for i := 0 to |items|
        invariant forall j :: 0 <= j < i ==> items[j].iccid != iccid
        invariant FirstOf(items[i..], iccid) == FirstOf(items, iccid)
        invariant View() == old(View())
      {
        var it := items[i];
        assert items[i..][1..] == items[i + 1..];
        if it.iccid != iccid {
          continue;
        }
        if !it.enabled {
          return NotEnabled;
        }
        if !call.force && !IsDue(checkedAt, it.lastActivity, it.firstSeen, it.intervalDays) {
          return NotDue;
        }
        var run := RunOne(call.(it := it));
        return Ran(run);
      }
      answer := NotFound;
    }

    /** The scheduler's round over items collected beforehand. calls[i] is how a run for items[i]
        would turn out; checkedAt[i] is the clock at the check made outside the lock. */
    method RunAll(enabled: bool, items: seq<Item>, checkedAt: seq<int>, calls: seq<Call>)
      returns (n: nat, ghost taken: seq<Call>)
      requires |checkedAt| == |calls| == |items|
      requires forall i :: 0 <= i < |items| ==> calls[i].it == items[i] && calls[i].all == items && !calls[i].force
      modifies this
      ensures Reaches(cfg, old(View()), taken, View())
      ensures taken == if enabled then Chosen(calls, checkedAt) else []
      ensures n <= |taken| && |log| == |old(log)| + n
    {
      hide Means, Airs, DueNow, IsDue;
      n, taken := 0, [];
      if !enabled {
        return;
      }
      for i := 0 to |items|
        invariant Reaches(cfg, old(View()), taken, View())
        invariant taken == Chosen(calls[..i], checkedAt)
        invariant n <= |taken| && |log| == |old(log)| + n
      {
        var it := items[i];
        assert calls[..i + 1][..i] == calls[..i];
        if !it.enabled || !it.online || !it.registered
           || !IsDue(checkedAt[i], it.lastActivity, it.firstSeen, it.intervalDays) {
          continue;
        }
        ghost var s := View();
        var run := RunOne(calls[i]);
        ReachesOneMore(cfg, old(View()), taken, s, calls[i], View(), run);
        taken := taken + [calls[i]];
        if run.Some? {
          n := n + 1;
        }
      }
      assert calls[..|calls|] == calls;
    }
  }

  // ----- Whole histories: any number of callers, serialised by the service's mutex -----

  ghost predicate Reaches(cfg: Config, s: State, calls: seq<Call>, s': State)
    decreases |calls|
  {
    if calls == [] then s' == s
    else
      var init, call := calls[..|calls| - 1], calls[|calls| - 1];
      exists mid, run :: Reaches(cfg, s, init, mid) && Does(cfg, mid, call, s', run)
  }

  lemma ReachesOneMore(cfg: Config, s: State, calls: seq<Call>, mid: State, call: Call, s': State, run: Option<Run>)
    requires Reaches(cfg, s, calls, mid) && Does(cfg, mid, call, s', run)
    ensures Reaches(cfg, s, calls + [call], s')
  {
    var longer := calls + [call];
    assert longer[..|longer| - 1] == calls && longer[|longer| - 1] == call;
    assert Reaches(cfg, s, longer[..|longer| - 1], mid) && Does(cfg, mid, longer[|longer| - 1], s', run);
  }

  lemma SentAppend(log: seq<Run>, cfg: Config, iccid: string, m: int, r: Run)
    ensures SentInMonth(log + [r], cfg, iccid, m) == SentInMonth(log, cfg, iccid, m)
      + if r.iccid == iccid && r.status == Sent && cfg.month(r.ranAt) == m then 1 else 0
  {
    assert (log + [r])[..|log + [r]| - 1] == log;
  }

  /** The log shows this call's run as sent. */
  ghost predicate Logs(cfg: Config, log: seq<Run>, call: Call) {
    Tries(cfg, log, call) && call.delivery == Reported && call.addOk
  }

  /** What one call does to the counts of a SIM in a month. */
  lemma OneCallCounted(cfg: Config, s: State, call: Call, s': State, run: Option<Run>, iccid: string, m: int)
    requires Does(cfg, s, call, s', run)
    ensures var here := call.it.iccid == iccid && cfg.month(call.now) == m;
      && SentInMonth(s'.log, cfg, iccid, m)
         == SentInMonth(s.log, cfg, iccid, m) + (if here && Logs(cfg, s.log, call) then 1 else 0)
      && SentInMonth(s'.aired, cfg, iccid, m)
         == SentInMonth(s.aired, cfg, iccid, m) + (if here && Airs(cfg, s.log, call) then 1 else 0)
      && SentInMonth(s'.lost, cfg, iccid, m)
         == SentInMonth(s.lost, cfg, iccid, m)
            + (if here && Airs(cfg, s.log, call) && !Logs(cfg, s.log, call) then 1 else 0)
  {
    hide SentInMonth, IsPick, Candidates, DueNow;
    if call.readOk && (call.force || DueNow(s.log, call)) {
      var r :| Means(cfg, s.log, call, r)
        && s'.log == (if call.addOk then s.log + [r] else s.log)
        && s'.aired == (if Airs(cfg, s.log, call) then s.aired + [r.(status := Sent)] else s.aired)
        && s'.lost == (if Airs(cfg, s.log, call) && !(call.delivery == Reported && call.addOk)
                       then s.lost + [r.(status := Sent)] else s.lost);
      SentIffReported(cfg, s.log, call, r);
      hide Means, Tries;
      SentAppend(s.log, cfg, iccid, m, r);
      SentAppend(s.aired, cfg, iccid, m, r.(status := Sent));
      SentAppend(s.lost, cfg, iccid, m, r.(status := Sent));
    }
  }

  lemma SentIffReported(cfg: Config, log: seq<Run>, call: Call, r: Run)
    requires Means(cfg, log, call, r) && call.readOk
    ensures r.status == Sent <==> Tries(cfg, log, call) && call.delivery == Reported
    ensures r.iccid == call.it.iccid && r.ranAt == call.now
  {
    hide SentInMonth, IsPick, Candidates, DueNow;
    var src, all := CandidateOf(call.it, 0), Candidates(cfg, log, call.all, call.now, call.partial);
    if SentInMonth(log, cfg, r.iccid, cfg.month(call.now)) < cfg.maxPerMonth {
      forall target | IsPick(src, all, target) ensures target.Some? <==> exists t :: IsPick(src, all, Some(t)) {
        NoneOrSome(src, all, target);
      }
    }
  }

  /** The air and the log drift apart in exactly the calls in which the network takes a message that
      is then not both reported and logged. */
  lemma DriftIsLoss(cfg: Config, s: State, call: Call, s': State, run: Option<Run>, iccid: string, m: int)
    requires Does(cfg, s, call, s', run) && call.it.iccid == iccid && cfg.month(call.now) == m
    ensures SentInMonth(s'.aired, cfg, iccid, m) - SentInMonth(s.aired, cfg, iccid, m)
         != SentInMonth(s'.log, cfg, iccid, m) - SentInMonth(s.log, cfg, iccid, m)
      <==> Tries(cfg, s.log, call) && call.delivery != NotTaken && !(call.delivery == Reported && call.addOk)
  {
    hide Does, SentInMonth, Tries;
    OneCallCounted(cfg, s, call, s', run, iccid, m);
  }

  /** The monthly cap, under every order of forced and unforced callers with stale items: the log
      never shows more than the cap, and the messages the network took are exactly those the log
      shows as sent and those lost to it. */
  lemma {:induction false} MonthlyCap(cfg: Config, s: State, calls: seq<Call>, s': State, iccid: string, m: int)
    requires Reaches(cfg, s, calls, s')
    ensures SentInMonth(s'.log, cfg, iccid, m)
         <= Max(SentInMonth(s.log, cfg, iccid, m), Max(0, cfg.maxPerMonth))
    ensures SentInMonth(s'.aired, cfg, iccid, m) - SentInMonth(s.aired, cfg, iccid, m)
         == (SentInMonth(s'.log, cfg, iccid, m) - SentInMonth(s.log, cfg, iccid, m))
            + (SentInMonth(s'.lost, cfg, iccid, m) - SentInMonth(s.lost, cfg, iccid, m))
    decreases |calls|
  {
    hide Does, SentInMonth, IsPick, Candidates, DueNow;
    if calls != [] {
      var call := calls[|calls| - 1];
      var mid, run :| Reaches(cfg, s, calls[..|calls| - 1], mid) && Does(cfg, mid, call, s', run);
      MonthlyCap(cfg, s, calls[..|calls| - 1], mid, iccid, m);
      OneCallCounted(cfg, mid, call, s', run, iccid, m);
    }
  }

  /** So from a fresh start the air stays within the cap exactly when the log leaves room for the
      lost messages; if none is lost, always. */
  lemma AirWithinCap(cfg: Config, calls: seq<Call>, s': State, iccid: string, m: int)
    requires Reaches(cfg, START, calls, s')
    ensures var cap, lost := Max(0, cfg.maxPerMonth), SentInMonth(s'.lost, cfg, iccid, m);
      && (SentInMonth(s'.aired, cfg, iccid, m) <= cap <==> lost <= cap - SentInMonth(s'.log, cfg, iccid, m))
      && (lost == 0 ==> SentInMonth(s'.aired, cfg, iccid, m) <= cap)
  {
    MonthlyCap(cfg, START, calls, s', iccid, m);
  }

  ghost predicate Next(cfg: Config, s: State, call: Call, s': State) {
    exists run :: Does(cfg, s, call, s', run)
  }

  /** The history with the state each call found and left. */
  ghost predicate Follows(cfg: Config, states: seq<State>, calls: seq<Call>) {
    |states| == |calls| + 1 && forall i :: 0 <= i < |calls| ==> Next(cfg, states[i], calls[i], states[i + 1])
  }

  ghost predicate Loses(cfg: Config, log: seq<Run>, call: Call, iccid: string, m: int) {
    call.it.iccid == iccid && cfg.month(call.now) == m && Airs(cfg, log, call) && !Logs(cfg, log, call)
  }

  lemma {:induction false} LostGrows(cfg: Config, states: seq<State>, calls: seq<Call>, iccid: string, m: int, n: nat)
    requires Follows(cfg, states, calls) && n <= |calls|
    ensures SentInMonth(states[n].lost, cfg, iccid, m) >= SentInMonth(states[0].lost, cfg, iccid, m)
    ensures SentInMonth(states[n].lost, cfg, iccid, m) == SentInMonth(states[0].lost, cfg, iccid, m)
      <==> forall i :: 0 <= i < n ==> !Loses(cfg, states[i].log, calls[i], iccid, m)
  {
    hide Does, SentInMonth, Airs, Logs;
    if n > 0 {
      LostGrows(cfg, states, calls, iccid, m, n - 1);
      assert Next(cfg, states[n - 1], calls[n - 1], states[n]);
      var run :| Does(cfg, states[n - 1], calls[n - 1], states[n], run);
      OneCallCounted(cfg, states[n - 1], calls[n - 1], states[n], run, iccid, m);
    }
  }

  lemma {:induction false} FollowsReaches(cfg: Config, states: seq<State>, calls: seq<Call>, n: nat)
    requires Follows(cfg, states, calls) && n <= |calls|
    ensures Reaches(cfg, states[0], calls[..n], states[n])
  {
    hide Does;
    if n > 0 {
      FollowsReaches(cfg, states, calls, n - 1);
      assert Next(cfg, states[n - 1], calls[n - 1], states[n]);
      var run :| Does(cfg, states[n - 1], calls[n - 1], states[n], run);
      ReachesOneMore(cfg, states[0], calls[..n - 1], states[n - 1], calls[n - 1], states[n], run);
      assert calls[..n] == calls[..n - 1] + [calls[n - 1]];
    }
  }

  /** Over any history, a month's air and log of a SIM grow alike exactly when no call of it has a
      message taken that is not both reported and logged. */
  lemma AirMatchesLog(cfg: Config, states: seq<State>, calls: seq<Call>, iccid: string, m: int)
    requires Follows(cfg, states, calls)
    ensures var first, last := states[0], states[|calls|];
      SentInMonth(last.aired, cfg, iccid, m) - SentInMonth(first.aired, cfg, iccid, m)
        == SentInMonth(last.log, cfg, iccid, m) - SentInMonth(first.log, cfg, iccid, m)
      <==> forall i :: 0 <= i < |calls| ==> !Loses(cfg, states[i].log, calls[i], iccid, m)
  {
    hide Does, SentInMonth, Loses;
    LostGrows(cfg, states, calls, iccid, m, |calls|);
    FollowsReaches(cfg, states, calls, |calls|);
    assert calls[..|calls|] == calls;
    MonthlyCap(cfg, states[0], calls, states[|calls|], iccid, m);
  }

  // ----- Messages the log does not show -----

  lemma SoleCandidate(src: Candidate, c: Candidate)
    requires Reachable(src, c)
    ensures IsPick(src, [c], Some(c))
  {
    LexConnected(c.iccid, c.iccid);
    assert Eligible(src, [c], c);
  }

  lemma SoleItem(cfg: Config, log: seq<Run>, call: Call, b: Item)
    requires call.all == [b] && b.inBay && Reachable(CandidateOf(call.it, 0), CandidateOf(b, 0))
    ensures var c := CandidateOf(b, CountFor(cfg, log, call.now, call.partial, b.iccid));
      IsPick(CandidateOf(call.it, 0), Candidates(cfg, log, call.all, call.now, call.partial), Some(c))
  {
    var c := CandidateOf(b, CountFor(cfg, log, call.now, call.partial, b.iccid));
    assert [b][..0] == [];
    assert Candidates(cfg, log, [b], call.now, call.partial) == [c];
    SoleCandidate(CandidateOf(call.it, 0), c);
  }

  /** A forced call with one other SIM to write to, whose message the network takes but whose run is
      reported as failed or cannot be logged. */
  ghost predicate LosingCall(call: Call, b: Item) {
    && call.all == [b] && b.inBay && Reachable(CandidateOf(call.it, 0), CandidateOf(b, 0))
    && call.force && call.readOk && call.renderOk
    && call.delivery != NotTaken && !(call.delivery == Reported && call.addOk)
  }

  lemma LosesOne(cfg: Config, s: State, call: Call, b: Item) returns (s': State, run: Option<Run>)
    requires LosingCall(call, b) && SentInMonth(s.log, cfg, call.it.iccid, cfg.month(call.now)) < cfg.maxPerMonth
    ensures Does(cfg, s, call, s', run) && Airs(cfg, s.log, call) && !Logs(cfg, s.log, call)
  {
    hide IsPick, Candidates, SentInMonth;
    SoleItem(cfg, s.log, call, b);
    var r := Run(call.it.iccid, b.iccid, if call.delivery == Reported then Sent else Failed, call.now);
    assert Means(cfg, s.log, call, r);
    run := if call.addOk then Some(r) else None;
    s' := State(if call.addOk then s.log + [r] else s.log, s.aired + [r.(status := Sent)], s.lost + [r.(status := Sent)]);
  }

  /** Such a call can be repeated without end: the log shows nothing sent, so the cap never bites. */
  lemma {:induction false} LostSendsPileUp(cfg: Config, call: Call, b: Item, k: nat) returns (s': State)
    requires LosingCall(call, b) && cfg.maxPerMonth > 0
    ensures Reaches(cfg, START, seq(k, _ => call), s')
    ensures SentInMonth(s'.log, cfg, call.it.iccid, cfg.month(call.now)) == 0
    ensures SentInMonth(s'.aired, cfg, call.it.iccid, cfg.month(call.now)) == k
  {
    hide Does, Airs, Logs, SentInMonth;
    var iccid, m := call.it.iccid, cfg.month(call.now);
    if k == 0 {
      s' := START;
      NothingSent(cfg, iccid, m);
    } else {
      var mid := LostSendsPileUp(cfg, call, b, k - 1);
      var run;
      s', run := LosesOne(cfg, mid, call, b);
      OneCallCounted(cfg, mid, call, s', run, iccid, m);
      ReachesOneMore(cfg, START, seq(k - 1, _ => call), mid, call, s', run);
      assert seq(k, _ => call) == seq(k - 1, _ => call) + [call];
    }
  }

  lemma NothingSent(cfg: Config, iccid: string, m: int)
    ensures SentInMonth([], cfg, iccid, m) == 0
  {
  }

  /** For any cap, a log that cannot be written lets one message more than the cap out. */
  lemma UnloggedSendExceedsCap(cap: nat) returns (cfg: Config, call: Call, s': State)
    requires cap > 0
    ensures cfg.maxPerMonth == cap && call.delivery == Reported && !call.addOk
    ensures Reaches(cfg, START, seq(cap + 1, _ => call), s')
    ensures SentInMonth(s'.log, cfg, "A", 0) == 0 && SentInMonth(s'.aired, cfg, "A", 0) == cap + 1
  {
    cfg := Config(cap, (t: int) => 0, (t: int) => t - 30 * DAY);
    var a := Item("A", "1", true, true, true, true, "op", None, None, 25);
    var b := Item("B", "2", true, true, true, true, "op", None, None, 25);
    call := Call(a, [b], true, 0, true, true, Reported, false, None);
    s' := LostSendsPileUp(cfg, call, b, cap + 1);
  }

  /** So does, with every run logged, a confirmation that each time comes too late. */
  lemma UnreportedSendExceedsCap(cap: nat) returns (cfg: Config, call: Call, s': State)
    requires cap > 0
    ensures cfg.maxPerMonth == cap && call.delivery == Unreported && call.addOk
    ensures Reaches(cfg, START, seq(cap + 1, _ => call), s')
    ensures SentInMonth(s'.log, cfg, "A", 0) == 0 && SentInMonth(s'.aired, cfg, "A", 0) == cap + 1
  {
    cfg := Config(cap, (t: int) => 0, (t: int) => t - 30 * DAY);
    var a := Item("A", "1", true, true, true, true, "op", None, None, 25);
    var b := Item("B", "2", true, true, true, true, "op", None, None, 25);
    call := Call(a, [b], true, 0, true, true, Unreported, true, None);
    s' := LostSendsPileUp(cfg, call, b, cap + 1);
  }

  // ----- When a run is due and what comes of it -----

  lemma {:induction false} LastSentExists(log: seq<Run>, iccid: string) returns (last: Option<int>)
    ensures IsLastSent(log, iccid, last)
    decreases |log|
  {
    last := None;
    if log != [] {
      var init, r := log[..|log| - 1], log[|log| - 1];
      last := LastSentExists(init, iccid);
      assert forall x :: x in log <==> x in init || x == r;
      if r.iccid == iccid && r.status == Sent && (last.None? || r.ranAt > last.value) {
        last := Some(r.ranAt);
      }
    }
  }

  lemma FarEnough(now: int, ref: int, days: int)
    requires 0 <= days <= 106_751
    ensures TimeSub(now, ref) >= Wrap64(days * DAY) <==> now - ref >= days * 86_400_000_000_000
  {
    assert 0 <= days * DAY <= MAX_INT64;
  }

  /** An item passes when it is enabled, online and registered, and its last activity, or failing that
      its first sight, is at least the interval old. */
  lemma PassesIff(it: Item, now: int)
    requires 0 <= it.intervalDays <= 106_751
    ensures Passes(it, now) <==>
      && it.enabled && it.online && it.registered
      && (it.lastActivity.Some? || it.firstSeen.Some?)
      && now - (if it.lastActivity.Some? then it.lastActivity else it.firstSeen).value
           >= it.intervalDays * 86_400_000_000_000
  {
    if it.lastActivity.Some? {
      FarEnough(now, it.lastActivity.value, it.intervalDays);
    } else if it.firstSeen.Some? {
      FarEnough(now, it.firstSeen.value, it.intervalDays);
    }
    hide TimeSub, Wrap64;
  }

  /** Up to 106751 days: with neither activity nor a logged send a SIM is due exactly when it was first
      seen the interval ago; otherwise exactly when the activity the caller knows of, if any, and
      every logged send of it are that old. */
  lemma DueIff(log: seq<Run>, call: Call)
    requires 0 <= call.it.intervalDays <= 106_751
    ensures var it, interval := call.it, call.it.intervalDays * 86_400_000_000_000;
      DueNow(log, call) <==>
        if it.lastActivity.None? && !(exists r :: r in log && r.iccid == it.iccid && r.status == Sent)
        then it.firstSeen.Some? && call.now - it.firstSeen.value >= interval
        else (it.lastActivity.Some? ==> call.now - it.lastActivity.value >= interval)
             && forall r :: r in log && r.iccid == it.iccid && r.status == Sent ==> call.now - r.ranAt >= interval
  {
    var it := call.it;
    var last := LastSentExists(log, it.iccid);
    DueByLastSent(log, call, last);
    var ref := Freshest(it.lastActivity, last);
    if ref.Some? {
      FarEnough(call.now, ref.value, it.intervalDays);
    } else if it.firstSeen.Some? {
      FarEnough(call.now, it.firstSeen.value, it.intervalDays);
    }
    hide DueNow, TimeSub, Wrap64;
  }

  lemma SomeoneToWriteTo(cfg: Config, log: seq<Run>, call: Call)
    ensures var src, all := CandidateOf(call.it, 0), Candidates(cfg, log, call.all, call.now, call.partial);
      (exists c :: Eligible(src, all, c)) <==> exists x :: InReach(call.it, call.all, x)
  {
    hide CountFor, Candidates;
    var src, all := CandidateOf(call.it, 0), Candidates(cfg, log, call.all, call.now, call.partial);
    if x :| InReach(call.it, call.all, x) {
      var y := x;
      if z :| InReach(call.it, call.all, z) && OwnNetwork(call.it, z) {
        y := z;
      }
      assert InPool(call.it, call.all, y);
      PoolIsEligible(cfg, log, call.it, call.all, call.now, call.partial, y);
      assert Eligible(src, all, CandidateOf(y, CountFor(cfg, log, call.now, call.partial, y.iccid)));
    }
    if c :| Eligible(src, all, c) {
      var t := TargetItem(cfg, log, call, c);
      assert InReach(call.it, call.all, t);
    }
  }

  /** A run that goes ahead: it is skipped exactly when the month's sends have reached the cap or there
      is nobody to write to, fails if the text cannot be rendered, and otherwise goes to a SIM in the
      tray and is sent or failed as the delivery was reported. */
  lemma RunOutcome(cfg: Config, log: seq<Run>, call: Call, run: Run)
    requires Means(cfg, log, call, run)
    ensures var sent := |set i | 0 <= i < |log| && SentIn(log[i], cfg, call.it.iccid, cfg.month(call.now))|;
      var open := sent < cfg.maxPerMonth && exists x :: InReach(call.it, call.all, x);
      && (run.status == Skipped <==> !open)
      && (run.status == Sent <==> open && call.renderOk && call.delivery == Reported)
      && (open && call.renderOk ==> exists t :: InReach(call.it, call.all, t) && t.iccid == run.target)
      && (!open || !call.renderOk ==> run.target == "")
  {
    SentInMonthCounts(log, cfg, call.it.iccid, cfg.month(call.now));
    SomeoneToWriteTo(cfg, log, call);
    hide SentInMonth, Candidates, DueNow, Eligible;
    var src, all := CandidateOf(call.it, 0), Candidates(cfg, log, call.all, call.now, call.partial);
    if SentInMonth(log, cfg, run.iccid, cfg.month(call.now)) < cfg.maxPerMonth {
      var target :| IsPick(src, all, target)
        && if target.None? then run.status == Skipped && run.target == ""
           else if !call.renderOk then run.status == Failed && run.target == ""
           else run.target == target.value.iccid && run.status == if call.delivery == Reported then Sent else Failed;
      if target.Some? {
        assert Eligible(src, all, target.value);
        var t := TargetItem(cfg, log, call, target.value);
        assert InReach(call.it, call.all, t) by {
          PickIsReachable(src, all, target.value);
        }
      }
    }
  }

  lemma PickIsReachable(src: Candidate, all: seq<Candidate>, t: Candidate)
    requires Eligible(src, all, t)
    ensures Reachable(src, t)
  {
  }

  // ----- Spacing -----

  const MAX_DAYS: int := 106_751 // the longest whole number of days an int64 of nanoseconds holds

  /** An unforced run recorded as sent comes a full interval after every earlier send of that SIM,
      however old the caller's idea of the last activity was. (An interval below -MAX_DAYS also
      wraps, but asks nothing of a run that is not older than the send before it.) */
  lemma Spacing(cfg: Config, log: seq<Run>, call: Call, run: Run, earlier: Run)
    requires Means(cfg, log, call, run) && run.status == Sent && !call.force
    requires call.it.intervalDays <= MAX_DAYS
    requires earlier in log && earlier.iccid == run.iccid && earlier.status == Sent
    ensures call.it.intervalDays >= -MAX_DAYS || earlier.ranAt <= run.ranAt ==>
      run.ranAt - earlier.ranAt >= call.it.intervalDays * DAY
  {
    var last :| IsLastSent(log, call.it.iccid, last)
      && IsDue(call.now, Freshest(call.it.lastActivity, last), call.it.firstSeen, call.it.intervalDays);
    var ref := Freshest(call.it.lastActivity, last);
    assert ref.Some? && earlier.ranAt <= last.value <= ref.value;
    if call.it.intervalDays >= -MAX_DAYS {
      DueMeansOld(call.now, ref.value, call.it.intervalDays);
    }
  }

  lemma DueMeansOld(now: int, ref: int, days: int)
    requires -MAX_DAYS <= days <= MAX_DAYS && TimeSub(now, ref) >= Wrap64(days * DAY)
    ensures now - ref >= days * DAY
  {
    var x := days * DAY;
    assert MIN_INT64 < x <= MAX_INT64 && Wrap64(x) == x;
  }

  /** An unforced run sent after an earlier send of the same SIM, but not the interval after it. */
  ghost predicate TooEarly(cfg: Config, log: seq<Run>, call: Call, run: Run, earlier: Run) {
    && Means(cfg, log, call, run) && run.status == Sent && !call.force
    && earlier in log && earlier.iccid == run.iccid && earlier.status == Sent
    && 0 <= run.ranAt - earlier.ranAt < call.it.intervalDays * DAY
  }

  /** Above MAX_DAYS the interval wraps below its true length, so for every such setting there is
      a log after which an unforced run is sent too early. */
  lemma LongIntervalsWrap(days: int) returns (cfg: Config, log: seq<Run>, call: Call, run: Run)
    requires days > MAX_DAYS
    ensures |log| == 1 && call.it.intervalDays == days && TooEarly(cfg, log, call, run, log[0])
  {
    var w := Wrap64(days * DAY);
    assert days * DAY > MAX_INT64 >= w;
    var now := Max(0, w);
    cfg := Config(5, (t: int) => 0, (t: int) => t);
    var a := Item("A", "1", true, true, true, true, "op", None, None, days);
    var b := Item("B", "2", true, true, true, true, "op", None, None, days);
    var first := Run("A", "B", Sent, 0);
    log := [first];
    call := Call(a, [b], false, now, true, true, Reported, true, None);
    run := Run("A", "B", Sent, now);
    var cb := CandidateOf(b, TargetCount(log, cfg.windowStart(now), "B"));
    assert [b][..0] == [] && Candidates(cfg, log, [], now, None) == [];
    assert Candidates(cfg, log, [b], now, None) == [cb];
    SoleCandidate(CandidateOf(a, 0), cb);
    assert IsLastSent(log, "A", Some(0)) by { assert first in log; }
    assert DueNow(log, call);
    SentAppend([], cfg, "A", 0, first);
    assert [] + [first] == log;
    hide IsPick, Candidates, DueNow, IsLastSent, SentInMonth;
    assert Means(cfg, log, call, run);
  }

  /** The interval is kept after every log exactly when it is no longer than MAX_DAYS. */
  lemma IntervalKeptUpTo(days: int)
    ensures (forall cfg, log, call: Call, run, earlier :: call.it.intervalDays == days ==> !TooEarly(cfg, log, call, run, earlier))
      <==> days <= MAX_DAYS
  {
    if days > MAX_DAYS {
      var cfg, log, call, run := LongIntervalsWrap(days);
    } else {
      forall cfg, log, call: Call, run, earlier | call.it.intervalDays == days ensures !TooEarly(cfg, log, call, run, earlier) {
        if TooEarly(cfg, log, call, run, earlier) {
          Spacing(cfg, log, call, run, earlier);
        }
      }
    }
  }

  ghost predicate Spaced(log: seq<Run>, iccid: string, days: int) {
    forall i, j :: 0 <= i < j < |log| && log[i].iccid == log[j].iccid == iccid && log[i].status == log[j].status == Sent ==>
      log[j].ranAt - log[i].ranAt >= days * DAY
  }

  /** Over any history in which a SIM is never forced, its sends stay an interval apart. */
  lemma {:induction false} SpacedHistory(cfg: Config, s: State, calls: seq<Call>, s': State, iccid: string, days: int)
    requires Reaches(cfg, s, calls, s') && Spaced(s.log, iccid, days)
    requires forall c :: c in calls && c.it.iccid == iccid ==> !c.force && 0 <= days <= c.it.intervalDays <= MAX_DAYS
    ensures Spaced(s'.log, iccid, days)
    decreases |calls|
  {
    hide Does, Spaced;
    if calls != [] {
      var call := calls[|calls| - 1];
      var mid, run :| Reaches(cfg, s, calls[..|calls| - 1], mid) && Does(cfg, mid, call, s', run);
      SpacedHistory(cfg, s, calls[..|calls| - 1], mid, iccid, days);
      OneCallSpaced(cfg, mid, call, s', run, iccid, days);
    }
  }

  lemma OneCallSpaced(cfg: Config, s: State, call: Call, s': State, run: Option<Run>, iccid: string, days: int)
    requires Does(cfg, s, call, s', run) && Spaced(s.log, iccid, days)
    requires call.it.iccid == iccid ==> !call.force && 0 <= days <= call.it.intervalDays <= MAX_DAYS
    ensures Spaced(s'.log, iccid, days)
  {
    hide SentInMonth, IsPick, Candidates, DueNow;
    if s'.log != s.log {
      var r :| Means(cfg, s.log, call, r) && s'.log == s.log + [r];
      if r.iccid == iccid && r.status == Sent {
        forall i | 0 <= i < |s.log| && s.log[i].iccid == iccid && s.log[i].status == Sent
          ensures r.ranAt - s.log[i].ranAt >= days * DAY
        {
          Spacing(cfg, s.log, call, r, s.log[i]);
        }
      }
    }
  }

  // ----- Rotation -----

  /** How often a SIM has been a target. */
  function Uses(log: seq<Run>, target: string): nat {
    if log == [] then 0
    else Uses(log[..|log| - 1], target)
         + (var r := log[|log| - 1]; if r.status == Sent && r.target != "" && r.target == target then 1 else 0)
  }

  lemma {:induction false} WindowCountsAll(log: seq<Run>, since: int, target: string)
    requires forall r :: r in log && r.status == Sent ==> r.ranAt >= since
    ensures TargetCount(log, since, target) == Uses(log, target)
  {
    if log != [] {
      assert forall r :: r in log[..|log| - 1] ==> r in log;
      assert log[|log| - 1] in log;
      WindowCountsAll(log[..|log| - 1], since, target);
    }
  }

  lemma {:induction false} CandidateMembers(cfg: Config, log: seq<Run>, all: seq<Item>, now: int,
                                            partial: Option<map<string, nat>>, c: Candidate)
    ensures c in Candidates(cfg, log, all, now, partial) <==>
      exists it :: it in all && it.inBay && c == CandidateOf(it, CountFor(cfg, log, now, partial, it.iccid))
  {
    hide CountFor;
    if all != [] {
      CandidateMembers(cfg, log, all[..|all| - 1], now, partial, c);
      assert all == all[..|all| - 1] + [all[|all| - 1]];
    }
  }

  /** A SIM in the tray that src could write to, and one on its own network. */
  predicate InReach(src: Item, all: seq<Item>, x: Item) {
    x in all && x.inBay && x.iccid != src.iccid && x.phone != ""
  }

  predicate OwnNetwork(src: Item, x: Item) {
    x.operator != "" && x.operator == src.operator
  }

  /** The SIMs one sender rotates over. */
  ghost predicate InPool(src: Item, all: seq<Item>, x: Item) {
    InReach(src, all, x) && ((exists y :: InReach(src, all, y) && OwnNetwork(src, y)) ==> OwnNetwork(src, x))
  }

  ghost predicate SpreadWithin(log: seq<Run>, src: Item, all: seq<Item>, d: int) {
    forall x, y :: InPool(src, all, x) && InPool(src, all, y) ==> Uses(log, x.iccid) - Uses(log, y.iccid) <= d
  }

  lemma PoolIsEligible(cfg: Config, log: seq<Run>, src: Item, all: seq<Item>, now: int,
                       partial: Option<map<string, nat>>, x: Item)
    requires x in all && x.inBay
    ensures InPool(src, all, x) <==>
      Eligible(CandidateOf(src, 0), Candidates(cfg, log, all, now, partial),
               CandidateOf(x, CountFor(cfg, log, now, partial, x.iccid)))
  {
    hide CountFor, Candidates;
    var s := CandidateOf(src, 0);
    var cs := Candidates(cfg, log, all, now, partial);
    forall c ensures c in cs <==>
      exists it :: it in all && it.inBay && c == CandidateOf(it, CountFor(cfg, log, now, partial, it.iccid))
    {
      CandidateMembers(cfg, log, all, now, partial, c);
    }
    forall y | InReach(src, all, y) && OwnNetwork(src, y)
      ensures exists d :: d in cs && Reachable(s, d) && SameNetwork(s, d)
    {
      var d := CandidateOf(y, CountFor(cfg, log, now, partial, y.iccid));
      assert d in cs && Reachable(s, d) && SameNetwork(s, d);
    }
    forall d | d in cs && Reachable(s, d) && SameNetwork(s, d)
      ensures exists y :: InReach(src, all, y) && OwnNetwork(src, y)
    {
      var y :| y in all && y.inBay && d == CandidateOf(y, CountFor(cfg, log, now, partial, y.iccid));
      assert InReach(src, all, y) && OwnNetwork(src, y);
    }
  }

  /** A send goes to a SIM of the pool that has no higher count than any other. */
  lemma PicksLeastCounted(cfg: Config, log: seq<Run>, call: Call, run: Run, x: Item) returns (t: Item)
    requires Means(cfg, log, call, run) && run.status == Sent && InPool(call.it, call.all, x)
    ensures InPool(call.it, call.all, t) && t.iccid == run.target && (x.online ==> t.online)
    ensures x.online == t.online ==>
      CountFor(cfg, log, call.now, call.partial, t.iccid) <= CountFor(cfg, log, call.now, call.partial, x.iccid)
    ensures
      (x.online == t.online
       && CountFor(cfg, log, call.now, call.partial, t.iccid) == CountFor(cfg, log, call.now, call.partial, x.iccid))
      ==> !LexLess(x.iccid, t.iccid)
  {
    hide CountFor, Candidates, Eligible, InPool, SentInMonth, DueNow;
    var cs := Candidates(cfg, log, call.all, call.now, call.partial);
    var target :| IsPick(CandidateOf(call.it, 0), cs, target) && target.Some? && run.target == target.value.iccid;
    t := TargetItem(cfg, log, call, target.value);
    PoolIsEligible(cfg, log, call.it, call.all, call.now, call.partial, t);
    var cx := CandidateOf(x, CountFor(cfg, log, call.now, call.partial, x.iccid));
    PoolInTray(call.it, call.all, x);
    PoolIsEligible(cfg, log, call.it, call.all, call.now, call.partial, x);
    assert !Before(cx, target.value);
  }

  /** That is, with working counts, the sent runs to it inside the window are the fewest; without, its
      count among those read is the lowest. */
  lemma LeastAimedAt(cfg: Config, log: seq<Run>, call: Call, run: Run, x: Item) returns (t: Item)
    requires Means(cfg, log, call, run) && run.status == Sent && InPool(call.it, call.all, x)
    ensures InPool(call.it, call.all, t) && t.iccid == run.target && (x.online ==> t.online)
    ensures x.online == t.online ==>
      match call.partial
      case None =>
        var since := cfg.windowStart(call.now);
        |set i | 0 <= i < |log| && AimedSince(log[i], since, t.iccid)|
          <= |set i | 0 <= i < |log| && AimedSince(log[i], since, x.iccid)|
      case Some(counts) =>
        (if t.iccid in counts then counts[t.iccid] else 0) <= if x.iccid in counts then counts[x.iccid] else 0
  {
    hide Means, InPool, TargetCount, AimedSince;
    t := PicksLeastCounted(cfg, log, call, run, x);
    TargetCountCounts(log, cfg.windowStart(call.now), t.iccid);
    TargetCountCounts(log, cfg.windowStart(call.now), x.iccid);
  }

  lemma PoolInTray(src: Item, all: seq<Item>, x: Item)
    requires InPool(src, all, x)
    ensures x in all && x.inBay
  {
  }

  lemma TargetItem(cfg: Config, log: seq<Run>, call: Call, c: Candidate) returns (t: Item)
    requires Eligible(CandidateOf(call.it, 0), Candidates(cfg, log, call.all, call.now, call.partial), c)
    ensures t in call.all && t.inBay && c == CandidateOf(t, CountFor(cfg, log, call.now, call.partial, t.iccid))
  {
    CandidateMembers(cfg, log, call.all, call.now, call.partial, c);
    t :| t in call.all && t.inBay && c == CandidateOf(t, CountFor(cfg, log, call.now, call.partial, t.iccid));
  }

  /** With working counts and equally online SIMs, no SIM of the pool has been used less often than
      the one a send goes to. */
  lemma PicksLeastUsed(cfg: Config, log: seq<Run>, call: Call, run: Run, x: Item)
    requires Means(cfg, log, call, run) && run.status == Sent && InPool(call.it, call.all, x) && call.partial.None?
    requires forall r :: r in log && r.status == Sent ==> r.ranAt >= cfg.windowStart(call.now)
    requires forall y, z :: InPool(call.it, call.all, y) && InPool(call.it, call.all, z) ==> y.online == z.online
    ensures exists t :: InPool(call.it, call.all, t) && t.iccid == run.target
    ensures Uses(log, run.target) <= Uses(log, x.iccid)
  {
    hide Means, InPool;
    var since := cfg.windowStart(call.now);
    var t := PicksLeastCounted(cfg, log, call, run, x);
    WindowCountsAll(log, since, t.iccid);
    WindowCountsAll(log, since, x.iccid);
  }

  /** A message always goes to a SIM in the tray; it stays on the sender's own network exactly when
      there is a SIM to write to there. */
  lemma StaysOnNetwork(cfg: Config, log: seq<Run>, call: Call, run: Run) returns (t: Item)
    requires Means(cfg, log, call, run) && run.status == Sent
    ensures InReach(call.it, call.all, t) && t.iccid == run.target
    ensures OwnNetwork(call.it, t) <==> exists y :: InReach(call.it, call.all, y) && OwnNetwork(call.it, y)
  {
    hide Candidates, SentInMonth, DueNow;
    var cs := Candidates(cfg, log, call.all, call.now, call.partial);
    var target :| IsPick(CandidateOf(call.it, 0), cs, target) && target.Some? && run.target == target.value.iccid;
    hide Means, Eligible, IsPick;
    assert Eligible(CandidateOf(call.it, 0), cs, target.value) by { PickIsEligible(CandidateOf(call.it, 0), cs, target.value); }
    t := TargetItem(cfg, log, call, target.value);
    PoolIsEligible(cfg, log, call.it, call.all, call.now, call.partial, t);
  }

  lemma PickIsEligible(src: Candidate, all: seq<Candidate>, t: Candidate)
    requires IsPick(src, all, Some(t))
    ensures Eligible(src, all, t)
  {
  }

  /** With only a foreign SIM to write to, the message goes there. */
  lemma LeavesNetwork(src: Candidate, c: Candidate)
    requires Reachable(src, c) && !SameNetwork(src, c)
    ensures IsPick(src, [c], Some(c))
  {
    SoleCandidate(src, c);
  }

  lemma UsesAppend(log: seq<Run>, r: Run, target: string)
    ensures Uses(log + [r], target) == Uses(log, target)
      + if r.status == Sent && r.target != "" && r.target == target then 1 else 0
  {
    assert (log + [r])[..|log + [r]| - 1] == log;
  }

  /** Rotation: while one sender works over a fixed pool of equally online SIMs and no send leaves
      the window, use counts never drift apart by more than one, or than they did at the start. */
  lemma {:induction false} RotationStaysEven(cfg: Config, s: State, calls: seq<Call>, s': State, src: Item, all: seq<Item>, d: int)
    requires Reaches(cfg, s, calls, s') && SpreadWithin(s.log, src, all, d)
    requires forall c :: c in calls ==> c.it == src && c.all == all && c.partial.None?
    requires forall c, r :: c in calls && r in s'.log && r.status == Sent ==> r.ranAt >= cfg.windowStart(c.now)
    requires forall y, z :: InPool(src, all, y) && InPool(src, all, z) ==> y.online == z.online
    ensures SpreadWithin(s'.log, src, all, Max(1, d))
    decreases |calls|
  {
    if calls != [] {
      var call := calls[|calls| - 1];
      var mid, run :| Reaches(cfg, s, calls[..|calls| - 1], mid) && Does(cfg, mid, call, s', run);
      assert forall r :: r in mid.log ==> r in s'.log;
      RotationStaysEven(cfg, s, calls[..|calls| - 1], mid, src, all, d);
      if s'.log != mid.log {
        var r :| Means(cfg, mid.log, call, r) && s'.log == mid.log + [r];
        forall x, y | InPool(src, all, x) && InPool(src, all, y)
          ensures Uses(s'.log, x.iccid) - Uses(s'.log, y.iccid) <= Max(1, d)
        {
          UsesAppend(mid.log, r, x.iccid);
          UsesAppend(mid.log, r, y.iccid);
          if r.status == Sent {
            PicksLeastUsed(cfg, mid.log, call, r, y);
          }
        }
      }
    }
  }
}
