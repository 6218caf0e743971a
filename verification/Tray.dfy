/** internal/slotlog/decide.go and internal/repository/bay_repo.go: the SIM tray. A bay is a modem,
    known by its IMEI; SIMs, known by their ICCID, move between bays. Three tables are kept in
    step: the bays, an append-only event log, and the slot number cached with each SIM. */
module Tray {
  import opened Basics
  import opened SlotInference

  datatype Bay = Bay(imei: string, slot: Option<int>, iccid: string) // iccid "" is an empty bay
  datatype Kind = Inserted | Moved | Removed
  datatype Event = Event(kind: Kind, iccid: string, imei: string, from: Option<int>, to: Option<int>, port: string)
  datatype Decision = Decision(bay: Bay, vacated: Option<Bay>, events: seq<Event>)

  const NO_DECISION := Decision(Bay("", None, ""), None, [])

  // ----- Deciding what a probe means -----

  /** The last row of this IMEI. */
  function BayOf(bays: seq<Bay>, imei: string): (r: Option<Bay>)
    ensures r.Some? ==> r.value in bays && r.value.imei == imei
    ensures r.None? <==> forall b :: b in bays ==> b.imei != imei
  {
    if bays == [] then None
    else
      var last := bays[|bays| - 1];
      if last.imei == imei then Some(last)
      else
        assert bays == bays[..|bays| - 1] + [last];
        BayOf(bays[..|bays| - 1], imei)
  }

  /** The last row of another modem that holds this SIM. */
  function OldBay(bays: seq<Bay>, imei: string, iccid: string): (r: Option<Bay>)
    ensures r.Some? ==> r.value in bays && r.value.imei != imei && r.value.iccid == iccid
    ensures r.None? <==> forall b :: b in bays && b.imei != imei ==> b.iccid != iccid
  {
    if bays == [] then None
    else
      var last := bays[|bays| - 1];
      if last.imei != imei && last.iccid == iccid then Some(last)
      else
        assert bays == bays[..|bays| - 1] + [last];
        OldBay(bays[..|bays| - 1], imei, iccid)
  }

  function Decide(bays: seq<Bay>, imei: string, iccid: string): Decision {
    if imei == "" || iccid == "" then NO_DECISION
    else
      var bay, home := BayOf(bays, imei), OldBay(bays, imei, iccid);
      if bay.None? then
        Decision(Bay(imei, None, iccid), None, [Event(Inserted, iccid, imei, None, None, "")])
      else if bay.value.iccid == iccid then
        Decision(bay.value, None, [])
      else
        var slot := bay.value.slot;
        var out := if bay.value.iccid == "" then [] else [Event(Removed, bay.value.iccid, imei, slot, None, "")];
        if home.Some? then
          Decision(bay.value.(iccid := iccid), Some(home.value.(iccid := "")),
                   out + [Event(Moved, iccid, imei, home.value.slot, slot, "")])
        else
          Decision(bay.value.(iccid := iccid), None, out + [Event(Inserted, iccid, imei, None, slot, "")])
  }

  method DecideSlotEvents(bays: seq<Bay>, imei: string, iccid: string) returns (d: Decision)
    ensures d == Decide(bays, imei, iccid)
  {
    if imei == "" || iccid == "" {
      return NO_DECISION;
    }
    var bay: Option<Bay>, home: Option<Bay> := None, None;
    for i := 0 to |bays|
      invariant bay == BayOf(bays[..i], imei) && home == OldBay(bays[..i], imei, iccid)
    {
      assert bays[..i + 1][..i] == bays[..i];
      if bays[i].imei == imei {
        bay := Some(bays[i]);
      } else if bays[i].iccid == iccid {
        home := Some(bays[i]);
      }
    }
    assert bays[..|bays|] == bays;
    if bay.None? {
      return Decision(Bay(imei, None, iccid), None, [Event(Inserted, iccid, imei, None, None, "")]);
    }
    if bay.value.iccid == iccid {
      return Decision(bay.value, None, []);
    }
    d := Decision(bay.value, None, []);
    if bay.value.iccid != "" {
      d := d.(events := d.events + [Event(Removed, bay.value.iccid, imei, bay.value.slot, None, "")]);
    }
    if home.Some? {
      d := d.(vacated := Some(home.value.(iccid := "")),
              events := d.events + [Event(Moved, iccid, imei, home.value.slot, bay.value.slot, "")]);
    } else {
      d := d.(events := d.events + [Event(Inserted, iccid, imei, None, bay.value.slot, "")]);
    }
    d := d.(bay := d.bay.(iccid := iccid));
  }

  // ----- The tables -----

  /** modems maps each SIM that has a row to its cached slot number. */
  datatype Tables = Tables(bays: seq<Bay>, events: seq<Event>, modems: map<string, Option<int>>)

  function SetIccid(bays: seq<Bay>, imei: string, iccid: string): (r: seq<Bay>)
    ensures |r| == |bays|
    ensures forall i :: 0 <= i < |r| ==> r[i] == if bays[i].imei == imei then bays[i].(iccid := iccid) else bays[i]
  {
    seq(|bays|, i requires 0 <= i < |bays| => if bays[i].imei == imei then bays[i].(iccid := iccid) else bays[i])
  }

  function SetSlot(bays: seq<Bay>, imei: string, slot: Option<int>): (r: seq<Bay>)
    ensures |r| == |bays|
    ensures forall i :: 0 <= i < |r| ==> r[i] == if bays[i].imei == imei then bays[i].(slot := slot) else bays[i]
  {
    seq(|bays|, i requires 0 <= i < |bays| => if bays[i].imei == imei then bays[i].(slot := slot) else bays[i])
  }

  /** syncSlotCache: take the number from any other SIM first, then write it. */
  function Sync(modems: map<string, Option<int>>, iccid: string, slot: Option<int>): map<string, Option<int>> {
    map c | c in modems ::
      if c == iccid then slot else if slot.Some? && modems[c] == slot then None else modems[c]
  }

  function SyncRemoved(modems: map<string, Option<int>>, events: seq<Event>): map<string, Option<int>> {
    if events == [] then modems
    else
      var e := events[0];
      SyncRemoved(if e.kind == Removed then Sync(modems, e.iccid, None) else modems, events[1..])
  }

  predicate SlotTaken(bays: seq<Bay>, imei: string, slot: Option<int>) {
    slot.Some? && exists i :: 0 <= i < |bays| && bays[i].slot == slot && bays[i].imei != imei
  }

  function LastPort(events: seq<Event>, imei: string): string {
    if events == [] then ""
    else if events[|events| - 1].imei == imei then events[|events| - 1].port
    else LastPort(events[..|events| - 1], imei)
  }

  predicate IsNewest(events: seq<Event>, imei: string, i: int) {
    0 <= i < |events| && events[i].imei == imei && forall j :: i < j < |events| ==> events[j].imei != imei
  }

  /** That is the port of the newest event of the modem, and "" if it has none. */
  lemma {:induction false} LastPortIs(events: seq<Event>, imei: string)
    ensures (forall e :: e in events ==> e.imei != imei) ==> LastPort(events, imei) == ""
    ensures forall i :: IsNewest(events, imei, i) ==> LastPort(events, imei) == events[i].port
  {
    if events != [] {
      var init, last := events[..|events| - 1], events[|events| - 1];
      assert events == init + [last];
      LastPortIs(init, imei);
      forall i | IsNewest(events, imei, i)
        ensures LastPort(events, imei) == events[i].port
      {
        if i < |init| {
          assert last.imei != imei by { assert events[|init|] == last; }
          assert IsNewest(init, imei, i);
        }
      }
    }
  }

  /** Calibrated slots with the port their modem was last seen on. */
  function KnownSlotPorts(bays: seq<Bay>, events: seq<Event>): map<int, string> {
    if bays == [] then map[]
    else
      var b := bays[|bays| - 1];
      var rest := KnownSlotPorts(bays[..|bays| - 1], events);
      if b.slot.Some? && LastPort(events, b.imei) != "" then rest[b.slot.value := LastPort(events, b.imei)] else rest
  }

  function OnPort(events: seq<Event>, port: string): (r: seq<Event>)
    ensures |r| == |events|
    ensures forall i :: 0 <= i < |r| ==> r[i] == events[i].(port := port)
  {
    seq(|events|, i requires 0 <= i < |events| => events[i].(port := port))
  }

  /** A slot is guessed only for a modem without one, when a SIM arrives in it from nowhere. */
  predicate Guesses(d: Decision) {
    d.bay.slot.None? && d.events != [] && d.events[0].kind == Inserted
  }

  function WithGuess(d: Decision, guess: Option<int>): Decision {
    if Guesses(d) then d.(bay := d.bay.(slot := guess), events := d.events[0 := d.events[0].(to := guess)]) else d
  }

  /** The transaction's effect, given the guess; None when the unique slot column makes it fail. */
  function Record(t: Tables, d: Decision, imei: string, iccid: string, port: string): Option<Tables> {
    if BayOf(t.bays, imei).None? && SlotTaken(t.bays, imei, d.bay.slot) then None
    else
      var upserted := if BayOf(t.bays, imei).None? then t.bays + [d.bay] else SetIccid(t.bays, imei, d.bay.iccid);
      var bays := if d.vacated.Some? then SetIccid(upserted, d.vacated.value.imei, "") else upserted;
      if d.events == [] then Some(t.(bays := bays))
      else Some(Tables(bays, t.events + OnPort(d.events, port),
                       SyncRemoved(Sync(t.modems, iccid, d.bay.slot), d.events)))
  }

  function Observed(t: Tables, imei: string, iccid: string, port: string, guess: Option<int>): Tables {
    if imei == "" || iccid == "" then t
    else
      var r := Record(t, WithGuess(Decide(t.bays, imei, iccid), guess), imei, iccid, port);
      if r.Some? then r.value else t
  }

  function MarkedEmpty(t: Tables, imei: string, port: string): Tables {
    var bay := BayOf(t.bays, imei);
    if bay.None? || bay.value.iccid == "" then t
    else Tables(SetIccid(t.bays, imei, ""),
                t.events + [Event(Removed, bay.value.iccid, imei, bay.value.slot, None, port)],
                Sync(t.modems, bay.value.iccid, None))
  }

  datatype AssignError = SlotAlreadyTaken | NoSuchBay

  function AssignRefused(t: Tables, imei: string, slot: Option<int>): Option<AssignError> {
    if SlotTaken(t.bays, imei, slot) then Some(SlotAlreadyTaken)
    else if BayOf(t.bays, imei).None? then Some(NoSuchBay)
    else None
  }

  function Assigned(t: Tables, imei: string, slot: Option<int>): Tables {
    if AssignRefused(t, imei, slot).Some? then t
    else
      var iccid := BayOf(t.bays, imei).value.iccid;
      t.(bays := SetSlot(t.bays, imei, slot),
         modems := if iccid == "" then t.modems else Sync(t.modems, iccid, slot))
  }

  /** The worker's upsert of a SIM's row, which leaves an existing row's slot alone. */
  function Registered(t: Tables, iccid: string): Tables {
    if iccid in t.modems then t else t.(modems := t.modems[iccid := None])
  }

  /** Deleting a SIM with its row: its bay is cleared, and no event is written. */
  function Deleted(t: Tables, iccid: string): Tables {
    t.(bays := SetEmpty(t.bays, iccid), modems := t.modems - {iccid})
  }

  function SetEmpty(bays: seq<Bay>, iccid: string): (r: seq<Bay>)
    ensures |r| == |bays|
    ensures forall i :: 0 <= i < |r| ==> r[i] == if bays[i].iccid == iccid then bays[i].(iccid := "") else bays[i]
  {
    seq(|bays|, i requires 0 <= i < |bays| => if bays[i].iccid == iccid then bays[i].(iccid := "") else bays[i])
  }

  ghost predicate GuessFits(t: Tables, imei: string, iccid: string, port: string, guess: Option<int>) {
    Guesses(Decide(t.bays, imei, iccid)) ==> IsInferred(KnownSlotPorts(t.bays, t.events), port, guess)
  }

  class BayRepository {
    var t: Tables

    constructor (t: Tables)
      ensures this.t == t
    {
      this.t := t;
    }

    method Known() returns (known: map<int, string>)
      ensures known == KnownSlotPorts(t.bays, t.events)
    {
      var portByImei: map<string, string> := map[];
      for i := 0 to |t.events|
        invariant forall m :: (if m in portByImei then portByImei[m] else "") == LastPort(t.events[..i], m)
      {
        assert t.events[..i + 1][..i] == t.events[..i];
        portByImei := portByImei[t.events[i].imei := t.events[i].port];
      }
      assert t.events[..|t.events|] == t.events;
      known := map[];
      for i := 0 to |t.bays|
        invariant known == KnownSlotPorts(t.bays[..i], t.events)
      {
        assert t.bays[..i + 1][..i] == t.bays[..i];
        var b := t.bays[i];
        if b.slot.Some? {
          var p := if b.imei in portByImei then portByImei[b.imei] else "";
          if p != "" {
            known := known[b.slot.value := p];
          }
        }
      }
      assert t.bays[..|t.bays|] == t.bays;
    }

    method Observe(imei: string, iccid: string, port: string) returns (written: seq<Event>, ghost guess: Option<int>)
      modifies this
      ensures GuessFits(old(t), imei, iccid, port, guess)
      ensures t == Observed(old(t), imei, iccid, port, guess)
      ensures t.events == old(t).events + written
    {
      hide IsInferred, KnownSlotPorts, BayOf, OldBay;
      written, guess := [], None;
      if imei == "" || iccid == "" {
        return;
      }
      var d := DecideSlotEvents(t.bays, imei, iccid);
      if d.bay.slot.None? && |d.events| > 0 && d.events[0].kind == Inserted {
        var known := Known();
        var slot := InferSlot(known, port);
        guess := slot;
        d := d.(bay := d.bay.(slot := slot), events := d.events[0 := d.events[0].(to := slot)]);
      }
      var bays := t.bays;
      if BayOf(bays, imei).Some? {
        bays := SetIccid(bays, imei, d.bay.iccid);
      } else if SlotTaken(bays, imei, d.bay.slot) {
        return; // the unique index refuses the row and the transaction is rolled back
      } else {
        bays := bays + [d.bay];
      }
      if d.vacated.Some? {
        bays := SetIccid(bays, d.vacated.value.imei, "");
      }
      if d.events == [] {
        t := t.(bays := bays);
        return;
      }
      written := OnPort(d.events, port);
      var modems := Sync(t.modems, iccid, d.bay.slot);
      for i := 0 to |d.events|
        invariant SyncRemoved(modems, d.events[i..]) == SyncRemoved(Sync(t.modems, iccid, d.bay.slot), d.events)
      {
        assert d.events[i..][1..] == d.events[i + 1..];
        if d.events[i].kind == Removed {
          modems := Sync(modems, d.events[i].iccid, None);
        }
      }
      t := Tables(bays, t.events + written, modems);
    }

    method MarkEmpty(imei: string, port: string)
      modifies this
      ensures t == MarkedEmpty(old(t), imei, port)
    {
      var bay := BayOf(t.bays, imei);
      if bay.None? || bay.value.iccid == "" {
        return;
      }
      var event := Event(Removed, bay.value.iccid, imei, bay.value.slot, None, port);
      t := t.(events := t.events + [event]);
      t := t.(modems := Sync(t.modems, bay.value.iccid, None));
      t := t.(bays := SetIccid(t.bays, imei, ""));
    }

    method AssignSlot(imei: string, slot: Option<int>) returns (error: Option<AssignError>)
      modifies this
      ensures error == Some(SlotAlreadyTaken) <==>
        slot.Some? && exists b :: b in old(t).bays && b.imei != imei && b.slot == slot
      ensures error == Some(NoSuchBay) <==>
        error != Some(SlotAlreadyTaken) && forall b :: b in old(t).bays ==> b.imei != imei
      ensures error.Some? ==> t == old(t)
      ensures error.None? ==> t.events == old(t).events && |t.bays| == |old(t).bays| && forall i :: 0 <= i < |t.bays| ==>
        t.bays[i] == if old(t).bays[i].imei == imei then old(t).bays[i].(slot := slot) else old(t).bays[i]
      ensures error == AssignRefused(old(t), imei, slot)
      ensures t == Assigned(old(t), imei, slot)
    {
      if SlotTaken(t.bays, imei, slot) {
        return Some(SlotAlreadyTaken);
      }
      var bay := BayOf(t.bays, imei);
      if bay.None? {
        return Some(NoSuchBay);
      }
      t := t.(bays := SetSlot(t.bays, imei, slot));
      if bay.value.iccid != "" {
        t := t.(modems := Sync(t.modems, bay.value.iccid, slot));
      }
      error := None;
    }
  }
}
