/** What every history of the tray keeps: the three tables agree, and the event log tells the
    whole story of who sat where. */
module TrayInvariants {
  import opened Basics
  import opened GoStrings
  import opened SlotInference
  import opened Tray

  ghost predicate Holds(bays: seq<Bay>, c: string) {
    exists b :: b in bays && b.iccid == c
  }

  ghost predicate DistinctRows(bays: seq<Bay>) {
    && (forall i, j :: 0 <= i < j < |bays| ==> bays[i].imei != bays[j].imei)
    && (forall i, j :: 0 <= i < j < |bays| ==> bays[i].slot.Some? ==> bays[i].slot != bays[j].slot)
    && (forall i, j :: 0 <= i < j < |bays| ==> bays[i].iccid != "" ==> bays[i].iccid != bays[j].iccid)
  }

  /** The cached slot of every SIM with a row is that of the bay holding it, or null. */
  ghost predicate CacheRight(bays: seq<Bay>, modems: map<string, Option<int>>) {
    && "" !in modems
    && (forall b :: b in bays && b.iccid in modems ==> modems[b.iccid] == b.slot)
    && (forall c :: c in modems && !Holds(bays, c) ==> modems[c] == None)
  }

  ghost predicate Consistent(t: Tables) {
    DistinctRows(t.bays) && CacheRight(t.bays, t.modems)
  }

  lemma FindBay(bays: seq<Bay>, b: Bay)
    requires DistinctRows(bays) && b in bays
    ensures BayOf(bays, b.imei) == Some(b)
  {
  }

  lemma SameRow(bays: seq<Bay>, a: Bay, b: Bay)
    requires DistinctRows(bays) && a in bays && b in bays
    requires a.imei == b.imei || (a.slot.Some? && a.slot == b.slot) || (a.iccid != "" && a.iccid == b.iccid)
    ensures a == b
  {
  }

  // ----- Placing a SIM in a known bay -----

  /** The bay rows after a SIM is seen in a modem and its former bay, if any, is cleared. */
  function Placed(bays: seq<Bay>, imei: string, iccid: string, home: Option<Bay>): (r: seq<Bay>)
    ensures |r| == |bays|
  {
    var seated := SetIccid(bays, imei, iccid);
    if home.Some? then SetIccid(seated, home.value.imei, "") else seated
  }

  lemma PlacedRows(bays: seq<Bay>, imei: string, iccid: string, home: Option<Bay>)
    requires DistinctRows(bays) && iccid != "" && home == OldBay(bays, imei, iccid)
    ensures var r := Placed(bays, imei, iccid, home);
      forall i :: 0 <= i < |r| ==>
        && r[i].imei == bays[i].imei && r[i].slot == bays[i].slot
        && r[i].iccid == if bays[i].imei == imei then iccid else if bays[i].iccid == iccid then "" else bays[i].iccid
  {
    OnlyHome(bays, imei, iccid, home);
    hide OldBay, DistinctRows;
  }

  lemma OnlyHome(bays: seq<Bay>, imei: string, iccid: string, home: Option<Bay>)
    requires DistinctRows(bays) && iccid != "" && home == OldBay(bays, imei, iccid)
    ensures forall i :: 0 <= i < |bays| && bays[i].imei != imei && bays[i].iccid == iccid ==>
      home.Some? && home.value.imei == bays[i].imei
    ensures home.Some? ==> home.value.imei != imei
    ensures home.Some? ==> forall i :: 0 <= i < |bays| && bays[i].imei == home.value.imei ==> bays[i].iccid == iccid
  {
    hide OldBay;
    forall i | 0 <= i < |bays| ensures bays[i] in bays {
    }
    forall i | 0 <= i < |bays| && home.Some? && (bays[i].iccid == iccid || bays[i].imei == home.value.imei)
      ensures bays[i] == home.value || bays[i].imei == imei
    {
      if bays[i].imei != imei {
        SameRow(bays, bays[i], home.value);
      }
    }
  }

  lemma PlacedDistinct(bays: seq<Bay>, imei: string, iccid: string, home: Option<Bay>)
    requires DistinctRows(bays) && iccid != "" && home == OldBay(bays, imei, iccid)
    ensures DistinctRows(Placed(bays, imei, iccid, home))
  {
    PlacedRows(bays, imei, iccid, home);
  }

  /** The cache after the same event: the SIM gets the bay's slot and an evicted SIM loses it. */
  function Recached(modems: map<string, Option<int>>, bay: Bay, iccid: string): map<string, Option<int>> {
    var m := Sync(modems, iccid, bay.slot);
    if bay.iccid == "" then m else Sync(m, bay.iccid, None)
  }

  lemma PlacedHolds(bays: seq<Bay>, bay: Bay, iccid: string, home: Option<Bay>)
    requires DistinctRows(bays) && bay in bays
    requires iccid != "" && bay.iccid != iccid && home == OldBay(bays, bay.imei, iccid)
    ensures forall c :: c != "" ==>
      (Holds(Placed(bays, bay.imei, iccid, home), c) <==> c == iccid || (c != bay.iccid && Holds(bays, c)))
  {
    var r := Placed(bays, bay.imei, iccid, home);
    PlacedRows(bays, bay.imei, iccid, home);
    assert Holds(r, iccid) by {
      var i :| 0 <= i < |bays| && bays[i] == bay;
      assert r[i] in r;
    }
    forall i | 0 <= i < |bays| && bays[i].iccid != iccid
      ensures r[i].iccid in {"", iccid} || (r[i].iccid == bays[i].iccid && r[i].iccid != bay.iccid)
      ensures bays[i].iccid != "" && bays[i].iccid != bay.iccid ==> r[i].iccid == bays[i].iccid
    {
      assert bays[i] in bays;
      if bays[i].imei == bay.imei || (bays[i].iccid == bay.iccid && bay.iccid != "") {
        SameRow(bays, bays[i], bay);
      }
    }
    forall c | c != "" && c != iccid && c != bay.iccid && Holds(bays, c) ensures Holds(r, c) {
      var i :| 0 <= i < |bays| && bays[i].iccid == c;
      assert r[i] in r;
    }
    forall c | c != "" && c != iccid && Holds(r, c) ensures c != bay.iccid && Holds(bays, c) {
      var i :| 0 <= i < |r| && r[i].iccid == c;
      assert bays[i] in bays;
    }
  }

  lemma PlacedCached(bays: seq<Bay>, modems: map<string, Option<int>>, bay: Bay, iccid: string, home: Option<Bay>)
    requires DistinctRows(bays) && CacheRight(bays, modems) && bay in bays
    requires iccid != "" && bay.iccid != iccid && home == OldBay(bays, bay.imei, iccid)
    ensures var m := Recached(modems, bay, iccid);
      forall b :: b in Placed(bays, bay.imei, iccid, home) && b.iccid in m ==> m[b.iccid] == b.slot
  {
    hide Holds, OldBay, Placed;
    var r, m := Placed(bays, bay.imei, iccid, home), Recached(modems, bay, iccid);
    PlacedRows(bays, bay.imei, iccid, home);
    forall b | b in r && b.iccid in m ensures m[b.iccid] == b.slot {
      var i :| 0 <= i < |r| && r[i] == b;
      assert bays[i] in bays;
      if bays[i].imei == bay.imei || (b.slot.Some? && b.slot == bay.slot) || b.iccid == bay.iccid {
        SameRow(bays, bays[i], bay);
      }
    }
  }

  lemma PlacedCacheRight(bays: seq<Bay>, modems: map<string, Option<int>>, bay: Bay, iccid: string, home: Option<Bay>)
    requires DistinctRows(bays) && CacheRight(bays, modems) && bay in bays
    requires iccid != "" && bay.iccid != iccid && home == OldBay(bays, bay.imei, iccid)
    ensures CacheRight(Placed(bays, bay.imei, iccid, home), Recached(modems, bay, iccid))
  {
    var r, m := Placed(bays, bay.imei, iccid, home), Recached(modems, bay, iccid);
    PlacedCached(bays, modems, bay, iccid, home);
    PlacedHolds(bays, bay, iccid, home);
    forall c | c in m && !Holds(r, c) ensures m[c] == None {
      assert c != bay.iccid ==> !Holds(bays, c);
    }
  }

  // ----- Observe -----

  /** A modem nobody has seen before takes a SIM that is still written down elsewhere. */
  ghost predicate Strands(t: Tables, imei: string, iccid: string, guess: Option<int>) {
    BayOf(t.bays, imei).None? && Holds(t.bays, iccid) && !SlotTaken(t.bays, imei, guess)
  }

  /** A slot is guessed for an empty bay that already has a row: the guess reaches the cache but
      the upsert leaves the row's slot null. */
  ghost predicate LosesGuess(t: Tables, imei: string, iccid: string, guess: Option<int>) {
    var bay := BayOf(t.bays, imei);
    && bay.Some? && bay.value.slot.None? && bay.value.iccid == "" && !Holds(t.bays, iccid) && guess.Some?
  }

  lemma HomeIsHolder(bays: seq<Bay>, imei: string, iccid: string)
    requires BayOf(bays, imei).None? || BayOf(bays, imei).value.iccid != iccid
    requires DistinctRows(bays)
    ensures OldBay(bays, imei, iccid).Some? <==> Holds(bays, iccid)
  {
    if Holds(bays, iccid) {
      var b :| b in bays && b.iccid == iccid;
      if b.imei == imei {
        FindBay(bays, b);
      }
    }
  }

  lemma ObserveSeen(t: Tables, imei: string, iccid: string, port: string, guess: Option<int>)
    requires imei != "" && iccid != "" && DistinctRows(t.bays)
    requires BayOf(t.bays, imei).Some? && BayOf(t.bays, imei).value.iccid == iccid
    ensures Observed(t, imei, iccid, port, guess) == t
  {
    var bay := BayOf(t.bays, imei).value;
    forall i | 0 <= i < |t.bays| && t.bays[i].imei == imei ensures t.bays[i].iccid == iccid {
      assert t.bays[i] in t.bays;
      SameRow(t.bays, t.bays[i], bay);
    }
    assert SetIccid(t.bays, imei, iccid) == t.bays;
  }

  lemma SyncOne(modems: map<string, Option<int>>, e: Event)
    requires e.kind != Removed
    ensures SyncRemoved(modems, [e]) == modems
  {
    assert [e][1..] == [];
  }

  /** The events of a SIM arriving in a bay that has a row. */
  function ArrivalEvents(bay: Bay, iccid: string, home: Option<Bay>, guess: Option<int>, port: string): seq<Event> {
    var to := if bay.slot.None? && bay.iccid == "" && home.None? then guess else bay.slot;
    (if bay.iccid == "" then [] else [Event(Removed, bay.iccid, bay.imei, bay.slot, None, port)])
    + [if home.Some? then Event(Moved, iccid, bay.imei, home.value.slot, to, port)
       else Event(Inserted, iccid, bay.imei, None, to, port)]
  }

  lemma ArrivalDecided(bays: seq<Bay>, imei: string, iccid: string, guess: Option<int>, port: string)
    requires imei != "" && iccid != ""
    requires BayOf(bays, imei).Some? && BayOf(bays, imei).value.iccid != iccid
    ensures var bay, home := BayOf(bays, imei).value, OldBay(bays, imei, iccid);
      OnPort(WithGuess(Decide(bays, imei, iccid), guess).events, port) == ArrivalEvents(bay, iccid, home, guess, port)
  {
  }

  lemma ObserveArrival(t: Tables, imei: string, iccid: string, port: string, guess: Option<int>)
    requires imei != "" && iccid != ""
    requires BayOf(t.bays, imei).Some? && BayOf(t.bays, imei).value.iccid != iccid
    ensures var bay, home := BayOf(t.bays, imei).value, OldBay(t.bays, imei, iccid);
      var t' := Observed(t, imei, iccid, port, guess);
      && t'.bays == Placed(t.bays, imei, iccid, home)
      && t'.events == t.events + ArrivalEvents(bay, iccid, home, guess, port)
      && t'.modems == Recached(t.modems,
           if bay.slot.None? && bay.iccid == "" && home.None? then bay.(slot := guess) else bay, iccid)
  {
    var bay, home := BayOf(t.bays, imei).value, OldBay(t.bays, imei, iccid);
    var d := WithGuess(Decide(t.bays, imei, iccid), guess);
    ArrivalDecided(t.bays, imei, iccid, guess, port);
    hide ArrivalEvents, OnPort, BayOf, OldBay;
    if bay.iccid == "" {
      assert d.events == [d.events[0]];
      SyncOne(Sync(t.modems, iccid, d.bay.slot), d.events[0]);
    } else {
      assert d.events[1..] == [d.events[1]];
      SyncOne(Sync(Sync(t.modems, iccid, d.bay.slot), bay.iccid, None), d.events[1]);
    }
  }

  lemma ObserveNew(t: Tables, imei: string, iccid: string, port: string, guess: Option<int>)
    requires imei != "" && iccid != "" && BayOf(t.bays, imei).None?
    ensures var t' := Observed(t, imei, iccid, port, guess);
      if SlotTaken(t.bays, imei, guess) then t' == t
      else
        && t'.bays == t.bays + [Bay(imei, guess, iccid)]
        && t'.events == t.events + [Event(Inserted, iccid, imei, None, guess, port)]
        && t'.modems == Sync(t.modems, iccid, guess)
  {
    var d := WithGuess(Decide(t.bays, imei, iccid), guess);
    assert d.events == [Event(Inserted, iccid, imei, None, guess, "")];
    assert OnPort(d.events, port) == [Event(Inserted, iccid, imei, None, guess, port)];
    SyncOne(Sync(t.modems, iccid, guess), d.events[0]);
  }

  lemma NewRowClashes(t: Tables, bay: Bay)
    requires bay.iccid != "" && Holds(t.bays, bay.iccid)
    ensures !DistinctRows(t.bays + [bay])
  {
    var r := t.bays + [bay];
    var i :| 0 <= i < |t.bays| && t.bays[i].iccid == bay.iccid;
    assert r[i].iccid == r[|t.bays|].iccid;
  }

  lemma NewRowFits(t: Tables, bay: Bay)
    requires Consistent(t) && BayOf(t.bays, bay.imei).None? && bay.iccid != "" && bay.iccid in t.modems
    requires !SlotTaken(t.bays, bay.imei, bay.slot) && !Holds(t.bays, bay.iccid)
    ensures DistinctRows(t.bays + [bay])
  {
    forall i | 0 <= i < |t.bays|
      ensures t.bays[i].imei != bay.imei && t.bays[i].iccid != bay.iccid && (bay.slot.Some? ==> t.bays[i].slot != bay.slot)
    {
      assert t.bays[i] in t.bays;
    }
  }

  lemma NewRowCached(t: Tables, bay: Bay)
    requires Consistent(t) && bay.iccid != "" && !Holds(t.bays, bay.iccid) && !SlotTaken(t.bays, bay.imei, bay.slot)
    requires BayOf(t.bays, bay.imei).None?
    ensures CacheRight(t.bays + [bay], Sync(t.modems, bay.iccid, bay.slot))
  {
    var r, m := t.bays + [bay], Sync(t.modems, bay.iccid, bay.slot);
    assert bay in r && forall b :: b in t.bays ==> b in r;
    assert forall c :: Holds(t.bays, c) ==> Holds(r, c);
    assert forall b :: b in r && b.iccid in m ==> m[b.iccid] == b.slot;
  }

  lemma NewRowConsistent(t: Tables, bay: Bay)
    requires Consistent(t) && BayOf(t.bays, bay.imei).None? && bay.iccid != "" && bay.iccid in t.modems
    requires !SlotTaken(t.bays, bay.imei, bay.slot)
    ensures DistinctRows(t.bays + [bay]) && CacheRight(t.bays + [bay], Sync(t.modems, bay.iccid, bay.slot))
      <==> !Holds(t.bays, bay.iccid)
  {
    hide DistinctRows, CacheRight, Holds, SlotTaken;
    if Holds(t.bays, bay.iccid) {
      NewRowClashes(t, bay);
    } else {
      NewRowFits(t, bay);
      NewRowCached(t, bay);
    }
  }

  /** Observe keeps the tables in step in all but two situations, and exactly those two. */
  lemma ObserveKeepsConsistent(t: Tables, imei: string, iccid: string, port: string, guess: Option<int>)
    requires Consistent(t) && imei != "" && iccid != "" && iccid in t.modems
    ensures Consistent(Observed(t, imei, iccid, port, guess))
      <==> !Strands(t, imei, iccid, guess) && !LosesGuess(t, imei, iccid, guess)
  {
    var t' := Observed(t, imei, iccid, port, guess);
    if BayOf(t.bays, imei).None? {
      ObserveNew(t, imei, iccid, port, guess);
      if !SlotTaken(t.bays, imei, guess) {
        NewRowConsistent(t, Bay(imei, guess, iccid));
      }
    } else {
      var bay := BayOf(t.bays, imei).value;
      if bay.iccid == iccid {
        ObserveSeen(t, imei, iccid, port, guess);
      } else {
        var home := OldBay(t.bays, imei, iccid);
        HomeIsHolder(t.bays, imei, iccid);
        ObserveArrival(t, imei, iccid, port, guess);
        PlacedDistinct(t.bays, imei, iccid, home);
        PlacedCacheRight(t.bays, t.modems, bay, iccid, home);
        if LosesGuess(t, imei, iccid, guess) {
          PlacedRows(t.bays, imei, iccid, home);
          var i :| 0 <= i < |t.bays| && t.bays[i] == bay;
          assert t'.bays[i] in t'.bays;
        }
      }
    }
  }

  // ----- The other operations -----

  /** Clearing one known bay. */
  lemma ClearedRows(bays: seq<Bay>, bay: Bay)
    requires DistinctRows(bays) && bay in bays
    ensures var r := SetIccid(bays, bay.imei, "");
      && DistinctRows(r)
      && (forall c :: c != "" ==> (Holds(r, c) <==> c != bay.iccid && Holds(bays, c)))
  {
    var r := SetIccid(bays, bay.imei, "");
    forall i | 0 <= i < |bays|
      ensures r[i].iccid == if bays[i] == bay then "" else bays[i].iccid
      ensures bays[i] != bay && bays[i].iccid != "" ==> bays[i].iccid != bay.iccid
    {
      assert bays[i] in bays;
      if bays[i].imei == bay.imei || (bays[i].iccid != "" && bays[i].iccid == bay.iccid) {
        SameRow(bays, bays[i], bay);
      }
    }
    forall c | c != "" && c != bay.iccid && Holds(bays, c) ensures Holds(r, c) {
      var i :| 0 <= i < |bays| && bays[i].iccid == c;
      assert r[i] in r;
    }
    forall c | c != "" && Holds(r, c) ensures c != bay.iccid && Holds(bays, c) {
      var i :| 0 <= i < |r| && r[i].iccid == c;
      assert bays[i] in bays;
    }
  }

  lemma MarkEmptyKeepsConsistent(t: Tables, imei: string, port: string)
    requires Consistent(t)
    ensures Consistent(MarkedEmpty(t, imei, port))
  {
    var found := BayOf(t.bays, imei);
    if found.Some? && found.value.iccid != "" {
      var bay, t' := found.value, MarkedEmpty(t, imei, port);
      ClearedRows(t.bays, bay);
      forall b | b in t'.bays && b.iccid in t'.modems ensures t'.modems[b.iccid] == b.slot {
        var i :| 0 <= i < |t'.bays| && t'.bays[i] == b;
        assert t.bays[i] in t.bays;
        assert Holds(t'.bays, b.iccid);
      }
    }
  }

  lemma AssignedRows(t: Tables, bay: Bay, slot: Option<int>)
    requires Consistent(t) && BayOf(t.bays, bay.imei) == Some(bay)
    requires AssignRefused(t, bay.imei, slot).None?
    ensures var r := Assigned(t, bay.imei, slot).bays;
      && |r| == |t.bays|
      && (forall i :: 0 <= i < |r| ==> r[i] == if t.bays[i] == bay then bay.(slot := slot) else t.bays[i])
      && (slot.Some? ==> forall i :: 0 <= i < |r| && t.bays[i] != bay ==> t.bays[i].slot != slot)
  {
    forall i | 0 <= i < |t.bays| && t.bays[i] != bay ensures t.bays[i].imei != bay.imei {
      assert t.bays[i] in t.bays;
      if t.bays[i].imei == bay.imei {
        SameRow(t.bays, t.bays[i], bay);
      }
    }
  }

  lemma AssignedHolds(t: Tables, bay: Bay, slot: Option<int>)
    requires Consistent(t) && BayOf(t.bays, bay.imei) == Some(bay)
    requires AssignRefused(t, bay.imei, slot).None?
    ensures forall c :: Holds(Assigned(t, bay.imei, slot).bays, c) <==> Holds(t.bays, c)
  {
    var r := Assigned(t, bay.imei, slot).bays;
    AssignedRows(t, bay, slot);
    assert forall i :: 0 <= i < |r| ==> r[i].iccid == t.bays[i].iccid;
    hide Assigned, Consistent, Holds;
    SameHolds(t.bays, r);
    SameHolds(r, t.bays);
  }

  lemma SameHolds(bays: seq<Bay>, r: seq<Bay>)
    requires |r| == |bays| && forall i :: 0 <= i < |r| ==> r[i].iccid == bays[i].iccid
    ensures forall c :: Holds(bays, c) ==> Holds(r, c)
  {
    forall b | b in bays ensures exists a :: a in r && a.iccid == b.iccid {
      var i :| 0 <= i < |bays| && bays[i] == b;
      assert r[i] in r;
    }
  }

  lemma AssignedDistinct(t: Tables, bay: Bay, slot: Option<int>)
    requires Consistent(t) && BayOf(t.bays, bay.imei) == Some(bay)
    requires AssignRefused(t, bay.imei, slot).None?
    ensures DistinctRows(Assigned(t, bay.imei, slot).bays)
  {
    AssignedRows(t, bay, slot);
    var r := Assigned(t, bay.imei, slot).bays;
    hide Assigned, CacheRight, BayOf, AssignRefused;
    assert forall i :: 0 <= i < |r| ==> r[i].imei == t.bays[i].imei && r[i].iccid == t.bays[i].iccid;
  }

  lemma AssignedCached(t: Tables, bay: Bay, slot: Option<int>)
    requires Consistent(t) && BayOf(t.bays, bay.imei) == Some(bay)
    requires AssignRefused(t, bay.imei, slot).None?
    ensures var t' := Assigned(t, bay.imei, slot);
      forall b :: b in t'.bays && b.iccid in t'.modems ==> t'.modems[b.iccid] == b.slot
  {
    hide Holds;
    var t' := Assigned(t, bay.imei, slot);
    AssignedRows(t, bay, slot);
    forall b | b in t'.bays && b.iccid in t'.modems ensures t'.modems[b.iccid] == b.slot {
      var i :| 0 <= i < |t'.bays| && t'.bays[i] == b;
      var a := t.bays[i];
      assert a in t.bays;
      if bay.iccid != "" && a.iccid == bay.iccid {
        SameRow(t.bays, a, bay);
      }
    }
  }

  lemma AssignKeepsConsistent(t: Tables, imei: string, slot: Option<int>)
    requires Consistent(t)
    ensures Consistent(Assigned(t, imei, slot))
  {
    hide DistinctRows, Holds;
    if AssignRefused(t, imei, slot).None? {
      var bay := BayOf(t.bays, imei).value;
      AssignedDistinct(t, bay, slot);
      AssignedHolds(t, bay, slot);
      AssignedCached(t, bay, slot);
      AssignedNulls(t, bay, slot);
    }
  }

  /** SIMs in no bay keep their null slot. */
  lemma AssignedNulls(t: Tables, bay: Bay, slot: Option<int>)
    requires Consistent(t) && BayOf(t.bays, bay.imei) == Some(bay) && AssignRefused(t, bay.imei, slot).None?
    ensures var t' := Assigned(t, bay.imei, slot);
      "" !in t'.modems && forall c :: c in t'.modems && !Holds(t.bays, c) ==> t'.modems[c] == None
  {
    hide DistinctRows;
    assert bay in t.bays && (bay.iccid != "" ==> Holds(t.bays, bay.iccid));
  }

  /** A new SIM row starts with a null slot, which is wrong exactly when a bay with a number
      already holds that SIM. */
  lemma RegisterKeepsConsistent(t: Tables, iccid: string)
    requires Consistent(t) && iccid != ""
    ensures Consistent(Registered(t, iccid))
      <==> iccid in t.modems || forall b :: b in t.bays && b.iccid == iccid ==> b.slot.None?
  {
  }

  // ----- Replaying the log -----

  /** Who sits where, by IMEI, as far as the log tells. */
  function ReplayOne(seats: map<string, string>, e: Event): map<string, string> {
    match e.kind
    case Inserted => seats[e.imei := e.iccid]
    case Removed => seats - {e.imei}
    case Moved => (map m | m in seats && seats[m] != e.iccid :: seats[m])[e.imei := e.iccid]
  }

  function Replay(seats: map<string, string>, events: seq<Event>): map<string, string> {
    if events == [] then seats else ReplayOne(Replay(seats, events[..|events| - 1]), events[|events| - 1])
  }

  ghost predicate HasBay(bays: seq<Bay>, imei: string) {
    exists b :: b in bays && b.imei == imei
  }

  /** seats is exactly the occupied bays. */
  ghost predicate Matches(bays: seq<Bay>, seats: map<string, string>) {
    && (forall b :: b in bays ==> (b.iccid != "" <==> b.imei in seats))
    && (forall b :: b in bays && b.imei in seats ==> seats[b.imei] == b.iccid)
    && (forall m :: m in seats ==> HasBay(bays, m))
  }

  // ----- The story of one SIM -----

  /** Reads the events of SIM c as a word over inserted, moved and removed: the result says whether
      the SIM ends in a bay, or None when the word makes no sense. */
  function Story(c: string, inside: bool, events: seq<Event>): Option<bool> {
    if events == [] then Some(inside)
    else
      var so, e := Story(c, inside, events[..|events| - 1]), events[|events| - 1];
      if e.iccid != c || so.None? then so
      else match e.kind
        case Inserted => if so.value then None else Some(true)
        case Moved => if so.value then Some(true) else None
        case Removed => if so.value then Some(false) else None
  }

  lemma AppendOne(seats: map<string, string>, c: string, inside: bool, events: seq<Event>, e: Event)
    ensures Replay(seats, events + [e]) == ReplayOne(Replay(seats, events), e)
    ensures var so := Story(c, inside, events);
      Story(c, inside, events + [e]) ==
        if e.iccid != c || so.None? then so
        else match e.kind
          case Inserted => if so.value then None else Some(true)
          case Moved => if so.value then Some(true) else None
          case Removed => if so.value then Some(false) else None
  {
    assert (events + [e])[..|events + [e]| - 1] == events;
  }

  lemma {:induction false} AppendMany(seats: map<string, string>, c: string, inside: bool, a: seq<Event>, b: seq<Event>)
    ensures Replay(seats, a + b) == Replay(Replay(seats, a), b)
    ensures Story(c, inside, a).Some? ==> Story(c, inside, a + b) == Story(c, Story(c, inside, a).value, b)
    decreases |b|
  {
    if b == [] {
      assert a + b == a;
    } else {
      var b', e := b[..|b| - 1], b[|b| - 1];
      assert b == b' + [e] && a + b == (a + b') + [e];
      AppendMany(seats, c, inside, a, b');
      AppendOne(seats, c, inside, a + b', e);
      AppendOne(Replay(seats, a), c, if Story(c, inside, a).Some? then Story(c, inside, a).value else false, b', e);
    }
  }

  /** What one step's new events must do: turn a right seating into the next one, continue every
      SIM's story to where that SIM now is, and, when a SIM moved, not name the same slot twice. */
  ghost predicate Tells(bays: seq<Bay>, news: seq<Event>, bays': seq<Bay>) {
    && (forall seats :: Matches(bays, seats) ==> Matches(bays', Replay(seats, news)))
    && (forall c :: c != "" ==> Story(c, Holds(bays, c), news) == Some(Holds(bays', c)))
    && (forall e :: e in news ==> e.iccid != "" && (e.kind == Moved && (e.from.Some? || e.to.Some?) ==> e.from != e.to))
  }

  lemma TellsNothing(bays: seq<Bay>)
    ensures Tells(bays, [], bays)
  {
  }

  lemma StoryOfOne(c: string, inside: bool, e: Event)
    ensures Story(c, inside, [e]) ==
      if e.iccid != c then Some(inside)
      else match e.kind
        case Inserted => if inside then None else Some(true)
        case Moved => if inside then Some(true) else None
        case Removed => if inside then Some(false) else None
    ensures forall seats :: Replay(seats, [e]) == ReplayOne(seats, e)
  {
    AppendOne(map[], c, inside, [], e);
    forall seats ensures Replay(seats, [e]) == ReplayOne(seats, e) {
      AppendOne(seats, c, inside, [], e);
      assert [] + [e] == [e];
    }
    assert [] + [e] == [e];
  }

  lemma RemovalSeats(bays: seq<Bay>, bay: Bay, port: string, seats: map<string, string>)
    requires DistinctRows(bays) && bay in bays && Matches(bays, seats)
    ensures Matches(SetIccid(bays, bay.imei, ""),
                    ReplayOne(seats, Event(Removed, bay.iccid, bay.imei, bay.slot, None, port)))
  {
    var r, next := SetIccid(bays, bay.imei, ""), seats - {bay.imei};
    RowsMatch(bays, r);
    forall b | b in r
      ensures b.iccid != "" <==> b.imei in next
      ensures b.imei in next ==> next[b.imei] == b.iccid
    {
      var i :| 0 <= i < |r| && r[i] == b;
      assert bays[i] in bays;
    }
  }

  lemma RemovalTells(bays: seq<Bay>, bay: Bay, port: string)
    requires DistinctRows(bays) && bay in bays && bay.iccid != ""
    ensures Tells(bays, [Event(Removed, bay.iccid, bay.imei, bay.slot, None, port)], SetIccid(bays, bay.imei, ""))
  {
    var e, r := Event(Removed, bay.iccid, bay.imei, bay.slot, None, port), SetIccid(bays, bay.imei, "");
    ClearedRows(bays, bay);
    assert Holds(bays, bay.iccid);
    forall c | c != "" ensures Story(c, Holds(bays, c), [e]) == Some(Holds(r, c)) {
      StoryOfOne(c, Holds(bays, c), e);
    }
    forall seats | Matches(bays, seats) ensures Matches(r, Replay(seats, [e])) {
      StoryOfOne("", false, e);
      RemovalSeats(bays, bay, port, seats);
    }
  }

  /** Rows with the same IMEIs in the same places. */
  lemma RowsMatch(bays: seq<Bay>, r: seq<Bay>)
    requires |bays| == |r| && forall i :: 0 <= i < |r| ==> r[i].imei == bays[i].imei
    ensures forall m :: HasBay(bays, m) ==> HasBay(r, m)
  {
    forall m | HasBay(bays, m) ensures HasBay(r, m) {
      var i :| 0 <= i < |bays| && bays[i].imei == m;
      assert r[i] in r;
    }
  }

  lemma TellsBoth(a: seq<Bay>, news: seq<Event>, b: seq<Bay>, more: seq<Event>, c: seq<Bay>)
    requires Tells(a, news, b) && Tells(b, more, c)
    ensures Tells(a, news + more, c)
  {
    forall seats | Matches(a, seats) ensures Matches(c, Replay(seats, news + more)) {
      AppendMany(seats, "", false, news, more);
    }
    forall sim | sim != "" ensures Story(sim, Holds(a, sim), news + more) == Some(Holds(c, sim)) {
      AppendMany(map[], sim, Holds(a, sim), news, more);
    }
  }

  /** A SIM seated in an empty bay, coming from another bay or from nowhere. */
  function SeatingEvent(bay: Bay, iccid: string, home: Option<Bay>, to: Option<int>, port: string): Event {
    if home.Some? then Event(Moved, iccid, bay.imei, home.value.slot, to, port)
    else Event(Inserted, iccid, bay.imei, None, to, port)
  }

  lemma SeatingSeats(bays: seq<Bay>, bay: Bay, iccid: string, home: Option<Bay>, e: Event, seats: map<string, string>)
    requires DistinctRows(bays) && bay in bays && bay.iccid == "" && iccid != "" && Matches(bays, seats)
    requires home == OldBay(bays, bay.imei, iccid) && e == SeatingEvent(bay, iccid, home, e.to, e.port)
    ensures Matches(Placed(bays, bay.imei, iccid, home), ReplayOne(seats, e))
  {
    hide OldBay, Placed, DistinctRows, ReplayOne, HasBay, SeatingEvent;
    var r, next := Placed(bays, bay.imei, iccid, home), ReplayOne(seats, e);
    PlacedRows(bays, bay.imei, iccid, home);
    forall i | 0 <= i < |bays|
      ensures r[i].iccid != "" <==> r[i].imei in next
      ensures r[i].imei in next ==> next[r[i].imei] == r[i].iccid
    {
      assert bays[i] in bays;
      SeatingSeat(bays, bays[i], bay, iccid, home, e, seats);
    }
    forall b | b in r
      ensures b.iccid != "" <==> b.imei in next
      ensures b.imei in next ==> next[b.imei] == b.iccid
    {
      var i :| 0 <= i < |r| && r[i] == b;
    }
    SeatingKnown(bays, bay, iccid, home, e, seats);
  }

  lemma SeatingKnown(bays: seq<Bay>, bay: Bay, iccid: string, home: Option<Bay>, e: Event, seats: map<string, string>)
    requires bay in bays && Matches(bays, seats) && e == SeatingEvent(bay, iccid, home, e.to, e.port)
    ensures forall m :: m in ReplayOne(seats, e) ==> HasBay(Placed(bays, bay.imei, iccid, home), m)
  {
    RowsMatch(bays, Placed(bays, bay.imei, iccid, home));
    forall m | m in ReplayOne(seats, e) ensures HasBay(bays, m) {
      assert m in seats || m == bay.imei;
    }
  }

  /** The same for one row a of the table. */
  lemma SeatingSeat(bays: seq<Bay>, a: Bay, bay: Bay, iccid: string, home: Option<Bay>, e: Event, seats: map<string, string>)
    requires DistinctRows(bays) && a in bays && bay in bays && bay.iccid == "" && iccid != ""
    requires (a.iccid != "" <==> a.imei in seats) && (a.imei in seats ==> seats[a.imei] == a.iccid)
    requires home == OldBay(bays, bay.imei, iccid) && e == SeatingEvent(bay, iccid, home, e.to, e.port)
    ensures var next := ReplayOne(seats, e);
      var now := if a.imei == bay.imei then iccid else if a.iccid == iccid then "" else a.iccid;
      (now != "" <==> a.imei in next) && (a.imei in next ==> next[a.imei] == now)
  {
  }

  lemma SeatingTells(bays: seq<Bay>, bay: Bay, iccid: string, home: Option<Bay>, e: Event)
    requires DistinctRows(bays) && bay in bays && bay.iccid == "" && iccid != ""
    requires home == OldBay(bays, bay.imei, iccid) && e == SeatingEvent(bay, iccid, home, e.to, e.port)
    requires home.Some? ==> e.to == bay.slot
    ensures Tells(bays, [e], Placed(bays, bay.imei, iccid, home))
  {
    var r := Placed(bays, bay.imei, iccid, home);
    PlacedHolds(bays, bay, iccid, home);
    FindBay(bays, bay);
    HomeIsHolder(bays, bay.imei, iccid);
    forall c | c != "" ensures Story(c, Holds(bays, c), [e]) == Some(Holds(r, c)) {
      StoryOfOne(c, Holds(bays, c), e);
    }
    forall seats | Matches(bays, seats) ensures Matches(r, Replay(seats, [e])) {
      StoryOfOne("", false, e);
      SeatingSeats(bays, bay, iccid, home, e, seats);
    }
    if home.Some? && home.value.slot.Some? && home.value.slot == bay.slot {
      SameRow(bays, home.value, bay);
    }
  }

  /** Placing in an occupied bay is clearing it and then placing. */
  lemma PlacedAfterClearing(bays: seq<Bay>, bay: Bay, iccid: string, home: Option<Bay>)
    requires DistinctRows(bays) && bay in bays && iccid != "" && bay.iccid != iccid
    requires home == OldBay(bays, bay.imei, iccid)
    ensures var cleared := SetIccid(bays, bay.imei, "");
      && bay.(iccid := "") in cleared
      && OldBay(cleared, bay.imei, iccid) == home
      && Placed(cleared, bay.imei, iccid, home) == Placed(bays, bay.imei, iccid, home)
  {
    var cleared := SetIccid(bays, bay.imei, "");
    var k :| 0 <= k < |bays| && bays[k] == bay;
    assert cleared[k] in cleared;
    OldBayIgnores(bays, bay.imei, iccid);
  }

  lemma {:induction false} OldBayIgnores(bays: seq<Bay>, imei: string, iccid: string)
    ensures OldBay(SetIccid(bays, imei, ""), imei, iccid) == OldBay(bays, imei, iccid)
  {
    if bays != [] {
      OldBayIgnores(bays[..|bays| - 1], imei, iccid);
      assert SetIccid(bays, imei, "")[..|bays| - 1] == SetIccid(bays[..|bays| - 1], imei, "");
    }
  }

  lemma ArrivalTells(bays: seq<Bay>, bay: Bay, iccid: string, guess: Option<int>, port: string)
    requires DistinctRows(bays) && bay in bays && iccid != "" && bay.iccid != iccid
    ensures var home := OldBay(bays, bay.imei, iccid);
      Tells(bays, ArrivalEvents(bay, iccid, home, guess, port), Placed(bays, bay.imei, iccid, home))
  {
    var home := OldBay(bays, bay.imei, iccid);
    var to := if bay.slot.None? && bay.iccid == "" && home.None? then guess else bay.slot;
    var e := SeatingEvent(bay, iccid, home, to, port);
    if bay.iccid == "" {
      SeatingTells(bays, bay, iccid, home, e);
      assert ArrivalEvents(bay, iccid, home, guess, port) == [e];
    } else {
      var cleared := SetIccid(bays, bay.imei, "");
      RemovalTells(bays, bay, port);
      ClearedRows(bays, bay);
      PlacedAfterClearing(bays, bay, iccid, home);
      SeatingTells(cleared, bay.(iccid := ""), iccid, home, e);
      TellsBoth(bays, [Event(Removed, bay.iccid, bay.imei, bay.slot, None, port)], cleared, [e],
                Placed(bays, bay.imei, iccid, home));
    }
  }

  lemma NewRowTells(bays: seq<Bay>, bay: Bay, port: string)
    requires BayOf(bays, bay.imei).None? && bay.iccid != "" && !Holds(bays, bay.iccid)
    ensures Tells(bays, [Event(Inserted, bay.iccid, bay.imei, None, bay.slot, port)], bays + [bay])
  {
    var e, r := Event(Inserted, bay.iccid, bay.imei, None, bay.slot, port), bays + [bay];
    assert bay in r && (forall b :: b in bays ==> b in r) && (forall b :: b in r ==> b in bays || b == bay);
    forall c | c != "" ensures Story(c, Holds(bays, c), [e]) == Some(Holds(r, c)) {
      StoryOfOne(c, Holds(bays, c), e);
      assert Holds(r, c) <==> Holds(bays, c) || c == bay.iccid;
    }
    forall seats | Matches(bays, seats) ensures Matches(r, Replay(seats, [e])) {
      StoryOfOne("", false, e);
      forall m | HasBay(bays, m) ensures HasBay(r, m) {
      }
      assert HasBay(r, bay.imei);
    }
  }

  // ----- What the operations come to -----

  /** The calibrated bays whose modem has been seen on a port, each with its last one. */
  lemma {:induction false} KnownMeans(bays: seq<Bay>, events: seq<Event>, s: int)
    requires DistinctRows(bays)
    ensures s in KnownSlotPorts(bays, events) <==>
      exists b :: b in bays && b.slot == Some(s) && LastPort(events, b.imei) != ""
    ensures forall b :: b in bays && b.slot == Some(s) && LastPort(events, b.imei) != "" ==>
      s in KnownSlotPorts(bays, events) && KnownSlotPorts(bays, events)[s] == LastPort(events, b.imei)
    decreases |bays|
  {
    hide LastPort;
    if bays != [] {
      var init, last := bays[..|bays| - 1], bays[|bays| - 1];
      assert bays == init + [last];
      KnownMeans(init, events, s);
      forall b | b in init && b.slot.Some? ensures b.slot != last.slot {
        var i :| 0 <= i < |init| && init[i] == b;
        assert bays[i] == b && bays[|init|] == last;
      }
    }
  }

  /** Row by row: the modem holds the SIM and no other modem does, every bay keeps its modem and slot,
      and those that held another SIM keep it. */
  ghost predicate Seated(bays: seq<Bay>, r: seq<Bay>, imei: string, iccid: string) {
    && |bays| <= |r|
    && (forall i :: 0 <= i < |r| ==> (r[i].imei == imei <==> r[i].iccid == iccid))
    && (forall i :: 0 <= i < |bays| ==> r[i].imei == bays[i].imei && r[i].slot == bays[i].slot)
    && (forall i :: 0 <= i < |bays| && bays[i].imei != imei && bays[i].iccid != iccid ==> r[i] == bays[i])
  }

  /** After a modem is seen with a SIM it holds that SIM; a modem not known before gets a row. */
  lemma ObserveOutcome(t: Tables, imei: string, iccid: string, port: string, guess: Option<int>)
    requires Consistent(t) && imei != "" && iccid != "" && !Strands(t, imei, iccid, guess)
    requires BayOf(t.bays, imei).Some? || !SlotTaken(t.bays, imei, guess)
    ensures var r := Observed(t, imei, iccid, port, guess).bays;
      && |r| == |t.bays| + (if BayOf(t.bays, imei).None? then 1 else 0)
      && HasBay(r, imei) && Seated(t.bays, r, imei, iccid)
  {
    var r := Observed(t, imei, iccid, port, guess).bays;
    if BayOf(t.bays, imei).None? {
      ObserveNew(t, imei, iccid, port, guess);
      hide Observed, Consistent;
      assert r[|t.bays|] in r;
      forall i | 0 <= i < |t.bays| ensures t.bays[i].imei != imei && t.bays[i].iccid != iccid {
        assert t.bays[i] in t.bays;
      }
    } else {
      var bay := BayOf(t.bays, imei).value;
      if bay.iccid == iccid {
        ObserveSeen(t, imei, iccid, port, guess);
        hide Observed;
        forall i | 0 <= i < |t.bays| ensures t.bays[i].imei == imei <==> t.bays[i].iccid == iccid {
          assert t.bays[i] in t.bays;
          if t.bays[i].imei == imei || t.bays[i].iccid == iccid {
            SameRow(t.bays, t.bays[i], bay);
          }
        }
      } else {
        ObserveArrival(t, imei, iccid, port, guess);
        hide Observed;
        PlacedSeats(t.bays, imei, iccid);
      }
    }
  }

  lemma PlacedSeats(bays: seq<Bay>, imei: string, iccid: string)
    requires DistinctRows(bays) && iccid != "" && HasBay(bays, imei)
    ensures var r := Placed(bays, imei, iccid, OldBay(bays, imei, iccid));
      HasBay(r, imei) && Seated(bays, r, imei, iccid)
  {
    var r := Placed(bays, imei, iccid, OldBay(bays, imei, iccid));
    PlacedRows(bays, imei, iccid, OldBay(bays, imei, iccid));
    hide Placed, OldBay, DistinctRows;
    var b :| b in bays && b.imei == imei;
    var k :| 0 <= k < |bays| && bays[k] == b;
    assert r[k] in r;
  }

  /** Clearing a bay empties it and no other; an event is written exactly if a SIM was in it. */
  lemma MarkEmptyOutcome(t: Tables, imei: string, port: string)
    requires Consistent(t)
    ensures var t' := MarkedEmpty(t, imei, port);
      && |t'.bays| == |t.bays|
      && (forall i :: 0 <= i < |t.bays| ==>
            t'.bays[i] == if t.bays[i].imei == imei then t.bays[i].(iccid := "") else t.bays[i])
      && t'.events == t.events + if exists b :: b in t.bays && b.imei == imei && b.iccid != ""
           then [Event(Removed, BayOf(t.bays, imei).value.iccid, imei, BayOf(t.bays, imei).value.slot, None, port)] else []
  {
    forall b | b in t.bays && b.imei == imei ensures BayOf(t.bays, imei) == Some(b) {
      FindBay(t.bays, b);
    }
    forall i | 0 <= i < |t.bays| ensures t.bays[i] in t.bays {
    }
  }

  /** A SIM's row appears empty once and stays; it goes when the SIM is deleted, with all its bays. */
  lemma RowOutcome(t: Tables, iccid: string)
    ensures Registered(t, iccid) == t.(modems := if iccid in t.modems then t.modems else t.modems[iccid := None])
    ensures var d := Deleted(t, iccid);
      && d.modems.Keys == t.modems.Keys - {iccid} && (forall c :: c in d.modems ==> d.modems[c] == t.modems[c])
      && |d.bays| == |t.bays| && (iccid != "" ==> forall i :: 0 <= i < |d.bays| ==> d.bays[i].iccid != iccid)
  {
  }

  /** Writing a slot number into the cache takes it from every other SIM and touches nothing else. */
  lemma SyncOutcome(modems: map<string, Option<int>>, iccid: string, slot: Option<int>)
    ensures var r := Sync(modems, iccid, slot);
      && r.Keys == modems.Keys
      && (iccid in r ==> r[iccid] == slot)
      && (forall c :: c in r && c != iccid && slot.Some? ==> r[c] != slot)
      && (forall c :: c in r && c != iccid && (slot.None? || modems[c] != slot) ==> r[c] == modems[c])
      && (forall c :: c in r && c != iccid && slot.Some? && modems[c] == slot ==> r[c] == None)
  {
  }

  /** The event names the port of the probe and the right places: where the SIM was taken from, and
      where it is now. */
  ghost predicate NamesPlaces(bays: seq<Bay>, e: Event, bays': seq<Bay>, port: string) {
    && e.port == port
    && match e.kind
       case Removed => e.to.None? && exists a :: a in bays && a.imei == e.imei && a.iccid == e.iccid && a.slot == e.from
       case Inserted => e.from.None? && exists b :: b in bays' && b.imei == e.imei && b.iccid == e.iccid && b.slot == e.to
       case Moved =>
         && (exists a :: a in bays && a.imei != e.imei && a.iccid == e.iccid && a.slot == e.from)
         && (exists b :: b in bays' && b.imei == e.imei && b.iccid == e.iccid && b.slot == e.to)
  }

  lemma ArrivalNamesPlaces(t: Tables, imei: string, iccid: string, port: string, guess: Option<int>)
    requires Consistent(t) && imei != "" && iccid != ""
    requires BayOf(t.bays, imei).Some? && BayOf(t.bays, imei).value.iccid != iccid && !LosesGuess(t, imei, iccid, guess)
    ensures var bay, home := BayOf(t.bays, imei).value, OldBay(t.bays, imei, iccid);
      forall e :: e in ArrivalEvents(bay, iccid, home, guess, port) ==>
        NamesPlaces(t.bays, e, Placed(t.bays, imei, iccid, home), port)
  {
    var bay, home := BayOf(t.bays, imei).value, OldBay(t.bays, imei, iccid);
    HomeIsHolder(t.bays, imei, iccid);
    TakesSeat(t.bays, bay, iccid, home);
    var r := Placed(t.bays, imei, iccid, home);
    hide Placed, DistinctRows, CacheRight, Holds;
    assert bay.(iccid := iccid) in r;
    assert bay.slot.None? && bay.iccid == "" && home.None? ==> guess.None?;
  }

  lemma TakesSeat(bays: seq<Bay>, bay: Bay, iccid: string, home: Option<Bay>)
    requires DistinctRows(bays) && bay in bays && iccid != "" && home == OldBay(bays, bay.imei, iccid)
    ensures bay.(iccid := iccid) in Placed(bays, bay.imei, iccid, home)
  {
    var r := Placed(bays, bay.imei, iccid, home);
    PlacedRows(bays, bay.imei, iccid, home);
    var k :| 0 <= k < |bays| && bays[k] == bay;
    assert r[k] in r && r[k] == bay.(iccid := iccid);
  }

  /** Every event a sound operation writes names its port and places. */
  lemma StepNamesPlaces(t: Tables, op: Op, news: seq<Event>)
    requires Consistent(t) && Sound(t, op) && Step(t, op).events == t.events + news
    ensures var port := if op.Observe? || op.Empty? then op.port else "";
      forall e :: e in news ==> NamesPlaces(t.bays, e, Step(t, op).bays, port)
  {
    hide NamesPlaces;
    assert (t.events + news)[|t.events|..] == news;
    assert t.events[|t.events|..] == [];
    match op
    case Observe(imei, iccid, port, guess) =>
      ObserveNamesPlaces(t, imei, iccid, port, guess, news);
    case Empty(imei, port) =>
      EmptyNamesPlaces(t, imei, port, news);
    case _ =>
      assert news == [];
  }

  lemma EmptyNamesPlaces(t: Tables, imei: string, port: string, news: seq<Event>)
    requires Consistent(t) && MarkedEmpty(t, imei, port).events == t.events + news
    ensures forall e :: e in news ==> NamesPlaces(t.bays, e, MarkedEmpty(t, imei, port).bays, port)
  {
    var more := MarkedEmpty(t, imei, port).events[|t.events|..];
    assert (t.events + news)[|t.events|..] == news;
    assert news == more;
  }

  lemma ObserveNamesPlaces(t: Tables, imei: string, iccid: string, port: string, guess: Option<int>, news: seq<Event>)
    requires Consistent(t) && Sound(t, Observe(imei, iccid, port, guess))
    requires Observed(t, imei, iccid, port, guess).events == t.events + news
    ensures forall e :: e in news ==> NamesPlaces(t.bays, e, Observed(t, imei, iccid, port, guess).bays, port)
  {
    assert (t.events + news)[|t.events|..] == news;
    assert t.events[|t.events|..] == [];
    if imei == "" || iccid == "" {
      ObserveNothing(t, imei, iccid, port, guess);
    } else if BayOf(t.bays, imei).None? {
      ObserveNew(t, imei, iccid, port, guess);
      var e := Event(Inserted, iccid, imei, None, guess, port);
      assert (t.events + [e])[|t.events|..] == [e];
      assert Bay(imei, guess, iccid) in t.bays + [Bay(imei, guess, iccid)];
    } else if BayOf(t.bays, imei).value.iccid == iccid {
      ObserveSeen(t, imei, iccid, port, guess);
    } else {
      hide Observed, NamesPlaces, Sound, LosesGuess;
      ObserveArrival(t, imei, iccid, port, guess);
      var more := ArrivalEvents(BayOf(t.bays, imei).value, iccid, OldBay(t.bays, imei, iccid), guess, port);
      assert (t.events + more)[|t.events|..] == more;
      assert !LosesGuess(t, imei, iccid, guess) by { SoundKeepsGuess(t, imei, iccid, port, guess); }
      ArrivalNamesPlaces(t, imei, iccid, port, guess);
    }
  }

  lemma SoundKeepsGuess(t: Tables, imei: string, iccid: string, port: string, guess: Option<int>)
    requires Sound(t, Observe(imei, iccid, port, guess)) && imei != "" && iccid != ""
    ensures !LosesGuess(t, imei, iccid, guess)
  {
  }

  // ----- Whole histories -----

  datatype Op =
    | Observe(imei: string, iccid: string, port: string, guess: Option<int>)
    | Empty(imei: string, port: string)
    | Assign(imei: string, slot: Option<int>)
    | Register(iccid: string)
    | Delete(iccid: string)

  function Step(t: Tables, op: Op): Tables {
    match op
    case Observe(imei, iccid, port, guess) => Observed(t, imei, iccid, port, guess)
    case Empty(imei, port) => MarkedEmpty(t, imei, port)
    case Assign(imei, slot) => Assigned(t, imei, slot)
    case Register(iccid) => Registered(t, iccid)
    case Delete(iccid) => Deleted(t, iccid)
  }

  function Run(t: Tables, ops: seq<Op>): Tables {
    if ops == [] then t else Step(Run(t, ops[..|ops| - 1]), ops[|ops| - 1])
  }

  /** The operation avoids the situations the lemmas above single out. A SIM has its row before it
      is observed: the worker registers it first. */
  ghost predicate Sound(t: Tables, op: Op) {
    match op
    case Observe(imei, iccid, port, guess) =>
      imei != "" && iccid != "" ==>
        && iccid in t.modems && GuessFits(t, imei, iccid, port, guess)
        && !Strands(t, imei, iccid, guess) && !LosesGuess(t, imei, iccid, guess)
    case Empty(_, _) => true
    case Assign(_, _) => true
    case Register(iccid) =>
      iccid != "" && (iccid in t.modems || forall b :: b in t.bays && b.iccid == iccid ==> b.slot.None?)
    case Delete(iccid) => iccid != "" && !Holds(t.bays, iccid)
  }

  ghost predicate AllSound(t: Tables, ops: seq<Op>) {
    ops == [] || (AllSound(t, ops[..|ops| - 1]) && Sound(Run(t, ops[..|ops| - 1]), ops[|ops| - 1]))
  }

  lemma SameOccupantsTell(bays: seq<Bay>, r: seq<Bay>)
    requires |bays| == |r|
    requires forall i :: 0 <= i < |r| ==> r[i].imei == bays[i].imei && r[i].iccid == bays[i].iccid
    ensures Tells(bays, [], r)
  {
    RowsMatch(bays, r);
    forall i | 0 <= i < |r| ensures r[i] in r && bays[i] in bays {
    }
    forall c ensures Holds(bays, c) <==> Holds(r, c) {
      if Holds(bays, c) {
        var i :| 0 <= i < |bays| && bays[i].iccid == c;
        assert r[i] in r;
      }
      if Holds(r, c) {
        var i :| 0 <= i < |r| && r[i].iccid == c;
        assert bays[i] in bays;
      }
    }
    forall seats | Matches(bays, seats) ensures Matches(r, seats) {
      forall b | b in r
        ensures (b.iccid != "" <==> b.imei in seats) && (b.imei in seats ==> seats[b.imei] == b.iccid)
      {
        var i :| 0 <= i < |r| && r[i] == b;
        assert bays[i] in bays;
      }
    }
  }

  lemma DeletedRows(bays: seq<Bay>, iccid: string)
    requires iccid != ""
    ensures forall c :: c != "" ==> (Holds(SetEmpty(bays, iccid), c) <==> c != iccid && Holds(bays, c))
  {
    var r := SetEmpty(bays, iccid);
    forall c | c != "" && c != iccid && Holds(bays, c) ensures Holds(r, c) {
      var i :| 0 <= i < |bays| && bays[i].iccid == c;
      assert r[i] in r;
    }
    forall c | c != "" && Holds(r, c) ensures c != iccid && Holds(bays, c) {
      var i :| 0 <= i < |r| && r[i].iccid == c;
      assert bays[i] in bays;
    }
  }

  lemma DeleteKeepsConsistent(t: Tables, iccid: string)
    requires Consistent(t) && iccid != ""
    ensures Consistent(Deleted(t, iccid))
  {
    var r := Deleted(t, iccid);
    DeletedRows(t.bays, iccid);
    forall b | b in r.bays && b.iccid in r.modems ensures r.modems[b.iccid] == b.slot {
      var i :| 0 <= i < |r.bays| && r.bays[i] == b;
      assert t.bays[i] in t.bays;
    }
  }

  /** Deleting a SIM writes no event, so the log goes on telling the truth exactly when the SIM is in
      no bay. */
  lemma DeleteTellsIff(t: Tables, iccid: string)
    requires iccid != ""
    ensures Deleted(t, iccid).events == t.events
    ensures Tells(t.bays, [], Deleted(t, iccid).bays) <==> !Holds(t.bays, iccid)
  {
    var r := SetEmpty(t.bays, iccid);
    if Holds(t.bays, iccid) {
      DeletedRows(t.bays, iccid);
      assert Story(iccid, true, []) == Some(true);
    } else {
      forall i | 0 <= i < |r| ensures r[i] == t.bays[i] {
        assert t.bays[i] in t.bays;
      }
      assert r == t.bays;
      TellsNothing(t.bays);
    }
  }

  /** Every sound operation keeps the tables in step, only appends to the log, and what it appends
      tells what happened. */
  lemma StepKeeps(t: Tables, op: Op) returns (news: seq<Event>)
    requires Consistent(t) && Sound(t, op)
    ensures Consistent(Step(t, op))
    ensures Step(t, op).events == t.events + news && Tells(t.bays, news, Step(t, op).bays)
  {
    news := [];
    TellsNothing(t.bays);
    assert t.events + [] == t.events;
    match op
    case Observe(imei, iccid, port, guess) =>
      if imei != "" && iccid != "" {
        ObserveKeepsConsistent(t, imei, iccid, port, guess);
        if BayOf(t.bays, imei).None? {
          ObserveNew(t, imei, iccid, port, guess);
          if !SlotTaken(t.bays, imei, guess) {
            NewRowTells(t.bays, Bay(imei, guess, iccid), port);
            news := [Event(Inserted, iccid, imei, None, guess, port)];
          }
        } else if BayOf(t.bays, imei).value.iccid == iccid {
          ObserveSeen(t, imei, iccid, port, guess);
        } else {
          var bay := BayOf(t.bays, imei).value;
          ObserveArrival(t, imei, iccid, port, guess);
          ArrivalTells(t.bays, bay, iccid, guess, port);
          news := ArrivalEvents(bay, iccid, OldBay(t.bays, imei, iccid), guess, port);
        }
      }
    case Empty(imei, port) =>
      MarkEmptyKeepsConsistent(t, imei, port);
      var bay := BayOf(t.bays, imei);
      if bay.Some? && bay.value.iccid != "" {
        RemovalTells(t.bays, bay.value, port);
        news := [Event(Removed, bay.value.iccid, imei, bay.value.slot, None, port)];
      }
    case Assign(imei, slot) =>
      AssignKeepsConsistent(t, imei, slot);
      SameOccupantsTell(t.bays, Step(t, op).bays);
    case Register(iccid) =>
      RegisterKeepsConsistent(t, iccid);
    case Delete(iccid) =>
      DeleteKeepsConsistent(t, iccid);
      DeleteTellsIff(t, iccid);
  }

  /** The tray over any history: slots stay distinct, a SIM is in at most one bay, the cached slots
      are right; replaying the new events over the first seating gives the present one; and every
      SIM's events are a word of (inserted moved* removed)*, continued from where it began. */
  lemma {:induction false} HistoryKeeps(t: Tables, ops: seq<Op>) returns (news: seq<Event>)
    requires Consistent(t) && AllSound(t, ops)
    ensures Consistent(Run(t, ops))
    ensures Run(t, ops).events == t.events + news && Tells(t.bays, news, Run(t, ops).bays)
    decreases |ops|
  {
    hide Tells, Consistent, Sound, Step;
    if ops == [] {
      news := [];
      TellsNothing(t.bays);
      assert t.events + [] == t.events;
    } else {
      var init := ops[..|ops| - 1];
      var mid := Run(t, init);
      news := HistoryKeeps(t, init);
      var more := StepKeeps(mid, ops[|ops| - 1]);
      TellsBoth(t.bays, news, mid.bays, more, Run(t, ops).bays);
      assert t.events + news + more == t.events + (news + more);
      news := news + more;
    }
  }

  // ----- The calibrated tray -----

  ghost predicate Calibrated(t: Tables) {
    forall b :: b in t.bays ==> b.slot.Some?
  }

  /** Probes of modems that have a row, removals and numbered assignments; SIMs get their row before
      they are first seen in a bay, and are deleted only when in none. */
  ghost predicate Everyday(t: Tables, op: Op) {
    match op
    case Observe(imei, iccid, _, _) => HasBay(t.bays, imei) && iccid in t.modems
    case Empty(_, _) => true
    case Assign(_, slot) => slot.Some?
    case Register(iccid) => iccid != "" && (iccid in t.modems || !Holds(t.bays, iccid))
    case Delete(iccid) => iccid != "" && !Holds(t.bays, iccid)
  }

  ghost predicate AllEveryday(t: Tables, ops: seq<Op>) {
    ops == [] || (AllEveryday(t, ops[..|ops| - 1]) && Everyday(Run(t, ops[..|ops| - 1]), ops[|ops| - 1]))
  }

  lemma SlotsKept(bays: seq<Bay>, r: seq<Bay>)
    requires |r| == |bays| && forall i :: 0 <= i < |r| ==> r[i].slot == bays[i].slot
    requires forall b :: b in bays ==> b.slot.Some?
    ensures forall b :: b in r ==> b.slot.Some?
  {
    forall b | b in r ensures b.slot.Some? {
      var i :| 0 <= i < |r| && r[i] == b;
      assert bays[i] in bays;
    }
  }

  lemma ObserveStaysCalibrated(t: Tables, imei: string, iccid: string, port: string, guess: Option<int>)
    requires Calibrated(t) && imei != "" && iccid != "" && HasBay(t.bays, imei)
    ensures Calibrated(Observed(t, imei, iccid, port, guess))
  {
    var bay := BayOf(t.bays, imei).value;
    if bay.iccid == iccid {
      SlotsKept(t.bays, SetIccid(t.bays, imei, iccid));
    } else {
      var home := OldBay(t.bays, imei, iccid);
      ObserveArrival(t, imei, iccid, port, guess);
      SlotsKept(t.bays, Placed(t.bays, imei, iccid, home));
    }
  }

  lemma StaysCalibrated(t: Tables, op: Op)
    requires Calibrated(t) && Everyday(t, op)
    ensures Sound(t, op) && Calibrated(Step(t, op))
  {
    hide Observed, Record;
    match op
    case Observe(imei, iccid, port, guess) =>
      if imei != "" && iccid != "" {
        ObserveStaysCalibrated(t, imei, iccid, port, guess);
      } else {
        ObserveNothing(t, imei, iccid, port, guess);
      }
    case Empty(imei, port) =>
      SlotsKept(t.bays, SetIccid(t.bays, imei, ""));
    case Assign(imei, slot) =>
      forall b | b in SetSlot(t.bays, imei, slot) ensures b.slot.Some? {
        var i :| 0 <= i < |t.bays| && SetSlot(t.bays, imei, slot)[i] == b;
        assert t.bays[i] in t.bays;
      }
    case Register(_) =>
    case Delete(iccid) =>
      SlotsKept(t.bays, SetEmpty(t.bays, iccid));
  }

  lemma ObserveNothing(t: Tables, imei: string, iccid: string, port: string, guess: Option<int>)
    requires imei == "" || iccid == ""
    ensures Observed(t, imei, iccid, port, guess) == t
  {
  }

  /** Every move is from one numbered slot to another. */
  ghost predicate MovesSlots(news: seq<Event>) {
    forall e :: e in news && e.kind == Moved ==> e.from.Some? && e.to.Some? && e.from != e.to
  }

  lemma ArrivalMovesSlots(t: Tables, bay: Bay, iccid: string, guess: Option<int>, port: string)
    requires Consistent(t) && Calibrated(t) && bay in t.bays && iccid != "" && bay.iccid != iccid
    ensures MovesSlots(ArrivalEvents(bay, iccid, OldBay(t.bays, bay.imei, iccid), guess, port))
  {
    var home := OldBay(t.bays, bay.imei, iccid);
    if home.Some? && home.value.slot == bay.slot {
      SameRow(t.bays, home.value, bay);
    }
  }

  lemma StepMovesSlots(t: Tables, op: Op, news: seq<Event>)
    requires Consistent(t) && Calibrated(t) && Everyday(t, op) && Step(t, op).events == t.events + news
    ensures MovesSlots(news)
  {
    assert (t.events + news)[|t.events|..] == news;
    assert t.events[|t.events|..] == [];
    match op
    case Observe(imei, iccid, port, guess) =>
      hide Observed, Consistent, Calibrated, ArrivalEvents;
      if imei == "" || iccid == "" {
        ObserveNothing(t, imei, iccid, port, guess);
      } else {
        ArrivalIsLogged(t, imei, iccid, port, guess, news);
      }
    case Empty(imei, port) =>
      forall e | e in news ensures e.kind == Removed {
        var n :| 0 <= n < |news| && news[n] == e;
        assert Step(t, op).events[|t.events| + n] == e;
      }
    case Assign(_, _) =>
    case Register(_) =>
    case Delete(_) =>
  }

  lemma ArrivalIsLogged(t: Tables, imei: string, iccid: string, port: string, guess: Option<int>, news: seq<Event>)
    requires Consistent(t) && Calibrated(t) && imei != "" && iccid != "" && HasBay(t.bays, imei)
    requires Observed(t, imei, iccid, port, guess).events == t.events + news
    ensures MovesSlots(news)
  {
    hide Observed;
    var bay := BayOf(t.bays, imei).value;
    assert (t.events + news)[|t.events|..] == news;
    if bay.iccid == iccid {
      ObserveSeen(t, imei, iccid, port, guess);
      assert news == [];
    } else {
      var more := ArrivalEvents(bay, iccid, OldBay(t.bays, imei, iccid), guess, port);
      ObserveArrival(t, imei, iccid, port, guess);
      assert (t.events + more)[|t.events|..] == more;
      ArrivalMovesSlots(t, bay, iccid, guess, port);
    }
  }

  /** The calibrated tray over every everyday history: no special case can arise, so all that
      HistoryKeeps says holds, and every move is from one numbered slot to another. */
  lemma {:induction false} CalibratedHistory(t: Tables, ops: seq<Op>) returns (news: seq<Event>)
    requires Consistent(t) && Calibrated(t) && AllEveryday(t, ops)
    ensures AllSound(t, ops) && Calibrated(Run(t, ops)) && Consistent(Run(t, ops))
    ensures Run(t, ops).events == t.events + news && Tells(t.bays, news, Run(t, ops).bays) && MovesSlots(news)
    decreases |ops|
  {
    hide Tells, Consistent, Sound, Step, Calibrated, Everyday;
    if ops == [] {
      news := [];
      TellsNothing(t.bays);
      assert t.events + [] == t.events;
    } else {
      var init, op := ops[..|ops| - 1], ops[|ops| - 1];
      var mid := Run(t, init);
      news := CalibratedHistory(t, init);
      StaysCalibrated(mid, op);
      var more := StepKeeps(mid, op);
      StepMovesSlots(mid, op, more);
      TellsBoth(t.bays, news, mid.bays, more, Run(t, ops).bays);
      assert t.events + news + more == t.events + (news + more);
      news := news + more;
    }
  }

  // ----- The two situations are real -----

  /** A SIM pushed into a modem without a row is written down twice. */
  lemma StrandedSim() returns (t: Tables, t': Tables)
    ensures Consistent(t) && GuessFits(t, "new", "sim", "port", None)
    ensures t' == Observed(t, "new", "sim", "port", None)
    ensures |t'.bays| == 2 && t'.bays[0].iccid == t'.bays[1].iccid == "sim"
  {
    var a := Bay("known", Some(1), "sim");
    t := Tables([a], [], map["sim" := Some(1)]);
    assert t.bays[0] in t.bays && Holds(t.bays, "sim");
    assert [a][..0] == [] && KnownSlotPorts([a], []) == map[];
    ObserveNew(t, "new", "sim", "port", None);
    t' := Observed(t, "new", "sim", "port", None);
  }

  lemma TwoKnownPorts(a: Bay, b: Bay, m: Bay, ea: Event, eb: Event)
    requires a.slot.Some? && b.slot.Some? && m.slot.None? && a.imei != b.imei
    requires ea.imei == a.imei && eb.imei == b.imei && ea.port != "" && eb.port != ""
    ensures KnownSlotPorts([a, b, m], [ea, eb]) == map[a.slot.value := ea.port][b.slot.value := eb.port]
  {
    var events := [ea, eb];
    assert events[..1] == [ea] && LastPort([ea], a.imei) == ea.port;
    assert LastPort(events, a.imei) == ea.port && LastPort(events, b.imei) == eb.port;
    assert [a, b, m][..2] == [a, b] && [a, b][..1] == [a] && [a][..0] == [];
    assert KnownSlotPorts([a], events) == map[a.slot.value := ea.port];
    assert KnownSlotPorts([a, b], events) == map[a.slot.value := ea.port][b.slot.value := eb.port];
  }

  /** Two calibrated bays on COM19 and COM20, and an empty one without a number. */
  function HalfCalibrated(): Tables {
    Tables([Bay("a", Some(16), ""), Bay("b", Some(15), ""), Bay("m", None, "")],
           [Event(Removed, "x", "a", Some(16), None, "COM" + Decimal(19)),
            Event(Removed, "y", "b", Some(15), None, "COM" + Decimal(20))],
           map["sim" := None])
  }

  lemma HalfCalibratedGuess()
    ensures var t := HalfCalibrated();
      IsInferred(KnownSlotPorts(t.bays, t.events), "COM" + Decimal(25), Some(10))
  {
    ComNumberOf(25);
    HalfCalibratedKnown();
    HalfCalibratedAgree();
    hide ComNumber, Decimal, KnownSlotPorts, Wins, Votes, Offset;
    assert 16 in Voters(HalfCalibratedPorts());
    assert SlotAt(HalfCalibratedPorts(), 35, 25) == Some(10);
  }

  function HalfCalibratedPorts(): map<int, string> {
    map[16 := "COM" + Decimal(19), 15 := "COM" + Decimal(20)]
  }

  lemma HalfCalibratedKnown()
    ensures var t := HalfCalibrated(); KnownSlotPorts(t.bays, t.events) == HalfCalibratedPorts()
  {
    ComNumberOf(19);
    ComNumberOf(20);
    hide ComNumber, Decimal;
    var t := HalfCalibrated();
    TwoKnownPorts(t.bays[0], t.bays[1], t.bays[2], t.events[0], t.events[1]);
  }

  lemma HalfCalibratedAgree()
    ensures var known := HalfCalibratedPorts();
      16 in Voters(known) && Votes(known, 35) == 2 && Wins(known, 35) && |known| == 2
  {
    ComNumberOf(19);
    ComNumberOf(20);
    hide ComNumber, Decimal;
    TwoAgree(HalfCalibratedPorts(), 16, 15, 35);
  }

  /** A slot guessed for a known, empty, uncalibrated bay shows in the SIM's cached slot only. */
  lemma LostGuess() returns (t: Tables, port: string, t': Tables)
    ensures Consistent(t) && GuessFits(t, "m", "sim", port, Some(10))
    ensures t' == Observed(t, "m", "sim", port, Some(10))
    ensures "sim" in t'.modems && t'.modems["sim"] == Some(10) && Bay("m", None, "sim") in t'.bays
  {
    t, port := HalfCalibrated(), "COM" + Decimal(25);
    HalfCalibratedGuess();
    HalfCalibratedRows();
    LostGuessStep(t, port);
    t' := Observed(t, "m", "sim", port, Some(10));
  }

  lemma HalfCalibratedRows()
    ensures var t := HalfCalibrated();
      Consistent(t) && BayOf(t.bays, "m") == Some(Bay("m", None, "")) && !Holds(t.bays, "sim") && "sim" in t.modems
  {
    hide Decimal;
    var t := HalfCalibrated();
    assert t.bays[2] in t.bays;
    FindBay(t.bays, t.bays[2]);
  }

  lemma LostGuessStep(t: Tables, port: string)
    requires DistinctRows(t.bays) && BayOf(t.bays, "m") == Some(Bay("m", None, "")) && !Holds(t.bays, "sim")
    requires "sim" in t.modems
    ensures var t' := Observed(t, "m", "sim", port, Some(10));
      "sim" in t'.modems && t'.modems["sim"] == Some(10) && Bay("m", None, "sim") in t'.bays
  {
    ObserveArrival(t, "m", "sim", port, Some(10));
    PlacedRows(t.bays, "m", "sim", OldBay(t.bays, "m", "sim"));
    var t' := Observed(t, "m", "sim", port, Some(10));
    var i :| 0 <= i < |t.bays| && t.bays[i] == Bay("m", None, "");
    assert t'.bays[i] in t'.bays;
  }

  lemma TwoAgree(known: map<int, string>, s: int, u: int, off: int)
    requires s != u && known.Keys == {s, u} && s in Voters(known) && u in Voters(known)
    requires Offset(known, s) == Offset(known, u) == off
    ensures Votes(known, off) == 2 && Wins(known, off) && |known| == 2
  {
    assert Supporters(known, off) == {s, u};
    forall o | o != off ensures Votes(known, o) == 0 {
      assert Supporters(known, o) == {};
    }
    assert |known| == |known.Keys|;
  }
}
