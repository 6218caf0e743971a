/** checkSMS and processPDU in internal/worker/worker_logic.go with CreateReceivedOnce in
    internal/repository/sms_repo.go: messages are copied from the modem to the database, announced,
    and only then deleted from the modem. */
module Inbox {
  import opened GoStrings
  import opened Framing
  import opened AtSession
  import opened SmsListing

  datatype Kind = Received | Outgoing
  datatype Row = Row(iccid: string, kind: Kind, pdu: string)

  /** The modem's message store, the message table, and the webhooks sent so far. arrived and
      deleted remember which PDUs ever came to the modem and which were deleted from it, purged
      which received rows went with the SIM when a user deleted it, and bared which PDUs were ever on
      the modem after their row had gone that way. */
  datatype World = World(store: map<int, string>, rows: seq<Row>, dispatched: seq<Row>,
                         arrived: set<string>, deleted: set<string>, purged: set<string>, bared: set<string>)

  /** What can happen around the worker at any moment. Purge is a user deleting the SIM, which
      takes all its rows. */
  datatype Act = Arrive(index: int, pdu: string) | OtherRow(row: Row) | Purge

  datatype Crash = NoCrash | AfterCreate | AfterDispatch
  datatype Deletion = Deleted | Refused | DeletedUnheard // the modem's "OK" may be lost

  /** How the handling of one listed message turns out. */
  datatype Luck = Luck(before: seq<Act>, between: seq<Act>, countOk: bool, createOk: bool,
                       crash: Crash, deletion: Deletion)

  function ReceivedRow(iccid: string, pdu: string): Row {
    Row(iccid, Received, pdu)
  }

  function Without(rows: seq<Row>, iccid: string): (r: seq<Row>)
    ensures forall x :: x in r <==> x in rows && x.iccid != iccid
  {
    if rows == [] then []
    else
      assert rows == rows[..|rows| - 1] + [rows[|rows| - 1]];
      var last := rows[|rows| - 1];
      Without(rows[..|rows| - 1], iccid) + if last.iccid == iccid then [] else [last]
  }

  function ReceivedBy(rows: seq<Row>, iccid: string): set<string> {
    set r | r in rows && r.iccid == iccid && r.kind == Received :: r.pdu
  }

  function Listed(store: map<int, string>): set<string> {
    set i | i in store :: store[i]
  }

  /** A message can only land in a free place, and only this worker inserts received rows for its
      SIM: listed workers never share one. */
  function Around(w: World, iccid: string, act: Act): World {
    match act
    case Arrive(index, pdu) =>
      if index in w.store then w else 
        w.(store := w.store[index := pdu], arrived := w.arrived + {pdu},
           bared := if pdu in w.purged && ReceivedRow(iccid, pdu) !in w.rows then w.bared + {pdu} else w.bared)
    case OtherRow(row) =>
      if row.iccid == iccid && row.kind == Received then w else w.(rows := w.rows + [row])
    case Purge =>
      var gone := ReceivedBy(w.rows, iccid);
      w.(rows := Without(w.rows, iccid), purged := w.purged + gone, bared := w.bared + gone * Listed(w.store))
  }

  function Meanwhile(w: World, iccid: string, acts: seq<Act>): World
    decreases |acts|
  {
    if acts == [] then w else Meanwhile(Around(w, iccid, acts[0]), iccid, acts[1..])
  }

  function Delete(w: World, index: int, deletion: Deletion): World {
    if deletion == Refused || index !in w.store then w
    else w.(store := w.store - {index}, deleted := w.deleted + {w.store[index]})
  }

  /** One listed message. The flag says whether the process lives on. */
  datatype Handled = Handled(world: World, alive: bool)

  function Handle(w: World, iccid: string, e: Stored, accepts: string -> bool, luck: Luck): Handled {
    var w := Meanwhile(w, iccid, luck.before);
    var row := ReceivedRow(iccid, e.pdu);
    if !accepts(e.pdu) || !luck.countOk then Handled(w, true)
    else if row in w.rows then Handled(Delete(w, e.index, luck.deletion), true)
    else
      var w := Meanwhile(w, iccid, luck.between);
      if !luck.createOk then Handled(w, true)
      else
        var w := w.(rows := w.rows + [row]);
        if luck.crash == AfterCreate then Handled(w, false)
        else
          var w := w.(dispatched := w.dispatched + [row]);
          if luck.crash == AfterDispatch then Handled(w, false)
          else Handled(Delete(w, e.index, luck.deletion), true)
  }

  function Poll(w: World, iccid: string, entries: seq<Stored>, accepts: string -> bool, lucks: seq<Luck>): World
    requires |entries| == |lucks|
    decreases |entries|
  {
    if entries == [] then w
    else
      var h := Handle(w, iccid, entries[0], accepts, lucks[0]);
      if h.alive then Poll(h.world, iccid, entries[1..], accepts, lucks[1..]) else h.world
  }

  // ----- The program -----

  class Receiver {
    const iccid: string
    /** Whether a PDU decodes to a message delivered to this phone. */
    const accepts: string -> bool
    var w: World

    constructor (iccid: string, accepts: string -> bool, w: World)
      ensures this.iccid == iccid && this.accepts == accepts && this.w == w
    {
      this.iccid, this.accepts, this.w := iccid, accepts, w;
    }

    method CreateReceivedOnce(message: Row, luck: Luck) returns (created: bool, failed: bool)
      modifies this
      ensures !luck.countOk ==> w == old(w) && failed && !created
      ensures luck.countOk && message in old(w).rows ==> w == old(w) && !failed && !created
      ensures luck.countOk && message !in old(w).rows ==>
        var mid := Meanwhile(old(w), iccid, luck.between);
        failed == !luck.createOk && created == luck.createOk
        && w == if luck.createOk then mid.(rows := mid.rows + [message]) else mid
    {
      if !luck.countOk {
        return false, true;
      }
      var count := 0;
      for i := 0 to |w.rows|
        invariant count > 0 <==> message in w.rows[..i]
        invariant count >= 0
      {
        if w.rows[i] == message {
          count := count + 1;
        }
      }
      assert w.rows[..|w.rows|] == w.rows;
      if count > 0 {
        return false, false;
      }
      w := Meanwhile(w, iccid, luck.between);
      if !luck.createOk {
        return false, true;
      }
      w := w.(rows := w.rows + [message]);
      return true, false;
    }

    method CheckSMS(entries: seq<Stored>, lucks: seq<Luck>)
      requires |lucks| == |entries|
      modifies this
      ensures w == Poll(old(w), iccid, entries, accepts, lucks)
    {
      for i := 0 to |entries|
        invariant Poll(w, iccid, entries[i..], accepts, lucks[i..]) == Poll(old(w), iccid, entries, accepts, lucks)
      {
        var e, luck := entries[i], lucks[i];
        assert entries[i..][1..] == entries[i + 1..] && lucks[i..][1..] == lucks[i + 1..];
        w := Meanwhile(w, iccid, luck.before);
        if !accepts(e.pdu) {
          continue; // the message stays on the modem
        }
        var row := ReceivedRow(iccid, e.pdu);
        var created, failed := CreateReceivedOnce(row, luck);
        if failed {
          continue;
        }
        if created {
          if luck.crash == AfterCreate {
            return;
          }
          w := w.(dispatched := w.dispatched + [row]);
          if luck.crash == AfterDispatch {
            return;
          }
        }
        w := Delete(w, e.index, luck.deletion);
      }
    }
  }

  // ----- Nothing lost, nothing doubled -----

  ghost predicate Saved(w: World, iccid: string, pdu: string) {
    ReceivedRow(iccid, pdu) in w.rows
  }

  ghost predicate OnModem(w: World, pdu: string) {
    exists i :: i in w.store && w.store[i] == pdu
  }

  ghost predicate Safe(w: World, iccid: string, accepts: string -> bool) {
    // every message that ever arrived is still on the modem or in the table, unless a user deleted it
    && (forall p :: p in w.arrived ==> OnModem(w, p) || Saved(w, iccid, p) || p in w.purged)
    && (forall i :: i in w.store ==> w.store[i] in w.arrived)
    // whatever was deleted from the modem was saved first, and was a readable message
    && (forall p :: p in w.deleted ==> (Saved(w, iccid, p) || p in w.purged) && accepts(p))
    // no message of this SIM has two rows
    && (forall i, j :: 0 <= i < j < |w.rows| && w.rows[i].iccid == iccid && w.rows[i].kind == Received ==>
          w.rows[i] != w.rows[j])
    // no row is announced twice unless a user deleted it with its message on the modem or to come
    // again, and only rows are announced
    && (forall i, j :: 0 <= i < j < |w.dispatched| && w.dispatched[i] == w.dispatched[j] ==>
          w.dispatched[i].pdu in w.bared)
    && (forall p :: OnModem(w, p) && p in w.purged && !Saved(w, iccid, p) ==> p in w.bared)
    && w.bared <= w.purged
    && (forall r :: r in w.dispatched ==> r == ReceivedRow(iccid, r.pdu) && (r in w.rows || r.pdu in w.purged))
  }

  /** The listing read at the start of a poll still describes the modem. */
  ghost predicate Current(w: World, entries: seq<Stored>) {
    && (forall e :: e in entries ==> e.index in w.store && w.store[e.index] == e.pdu)
    && (forall i, j :: 0 <= i < j < |entries| ==> entries[i].index != entries[j].index)
  }

  lemma PurgeKeeps(w: World, iccid: string, accepts: string -> bool)
    requires Safe(w, iccid, accepts)
    ensures Safe(Around(w, iccid, Purge), iccid, accepts)
  {
    var v := Around(w, iccid, Purge);
    forall p | Saved(w, iccid, p) ensures p in v.purged {
      assert ReceivedRow(iccid, p).pdu == p;
    }
    assert forall i :: 0 <= i < |v.rows| ==> v.rows[i] in v.rows;
    assert forall p :: OnModem(w, p) ==> OnModem(v, p);
  }

  lemma AroundKeeps(w: World, iccid: string, accepts: string -> bool, act: Act, entries: seq<Stored>)
    requires Safe(w, iccid, accepts) && Current(w, entries)
    ensures var v := Around(w, iccid, act);
      && Safe(v, iccid, accepts) && Current(v, entries) && v.dispatched == w.dispatched
      && (forall p :: Saved(v, iccid, p) ==> Saved(w, iccid, p))
  {
    var v := Around(w, iccid, act);
    if act.Purge? {
      PurgeKeeps(w, iccid, accepts);
    }
    if act.Arrive? && act.index !in w.store {
      assert v.store[act.index] == act.pdu && OnModem(v, act.pdu);
      forall p | OnModem(w, p) ensures OnModem(v, p) {
        var i :| i in w.store && w.store[i] == p;
        assert v.store[i] == p;
      }
    }
  }

  lemma {:induction false} MeanwhileKeeps(w: World, iccid: string, accepts: string -> bool, acts: seq<Act>, entries: seq<Stored>)
    requires Safe(w, iccid, accepts) && Current(w, entries)
    ensures var v := Meanwhile(w, iccid, acts);
      && Safe(v, iccid, accepts) && Current(v, entries) && v.dispatched == w.dispatched
      && (forall p :: Saved(v, iccid, p) ==> Saved(w, iccid, p))
    decreases |acts|
  {
    hide Safe, Current, Saved;
    if acts != [] {
      AroundKeeps(w, iccid, accepts, acts[0], entries);
      MeanwhileKeeps(Around(w, iccid, acts[0]), iccid, accepts, acts[1..], entries);
    }
  }

  lemma DeleteKeeps(w: World, iccid: string, accepts: string -> bool, entries: seq<Stored>, deletion: Deletion)
    requires Safe(w, iccid, accepts) && entries != [] && Current(w, entries)
    requires Saved(w, iccid, entries[0].pdu) && accepts(entries[0].pdu)
    ensures var v := Delete(w, entries[0].index, deletion);
      Safe(v, iccid, accepts) && Current(v, entries[1..]) && v.rows == w.rows && v.dispatched == w.dispatched
  {
    var v := Delete(w, entries[0].index, deletion);
    assert entries[0] in entries;
    forall e | e in entries[1..] ensures e in entries && e.index != entries[0].index {
    }
    forall p | p in w.arrived ensures OnModem(v, p) || Saved(v, iccid, p) || p in v.purged {
      if OnModem(w, p) && p != entries[0].pdu {
        var i :| i in w.store && w.store[i] == p;
        assert i in v.store && v.store[i] == p;
      }
    }
  }

  lemma SaveKeeps(w: World, iccid: string, accepts: string -> bool, entries: seq<Stored>, row: Row)
    requires Safe(w, iccid, accepts) && Current(w, entries)
    requires row !in w.rows && row.iccid == iccid && row.kind == Received && OnModem(w, row.pdu)
    ensures var v := w.(rows := w.rows + [row]);
      && Safe(v, iccid, accepts) && Current(v, entries)
      && Safe(v.(dispatched := v.dispatched + [row]), iccid, accepts)
      && Current(v.(dispatched := v.dispatched + [row]), entries)
  {
  }

  lemma HandleKeeps(w: World, iccid: string, accepts: string -> bool, entries: seq<Stored>, luck: Luck)
    requires Safe(w, iccid, accepts) && entries != [] && Current(w, entries)
    ensures var h := Handle(w, iccid, entries[0], accepts, luck);
      Safe(h.world, iccid, accepts) && Current(h.world, entries[1..])
  {
    hide Safe, Current, Meanwhile, Delete;
    var e := entries[0];
    var row := ReceivedRow(iccid, e.pdu);
    MeanwhileKeeps(w, iccid, accepts, luck.before, entries);
    var w1 := Meanwhile(w, iccid, luck.before);
    CurrentTail(w1, entries);
    if accepts(e.pdu) && luck.countOk {
      if row in w1.rows {
        DeleteKeeps(w1, iccid, accepts, entries, luck.deletion);
      } else {
        MeanwhileKeeps(w1, iccid, accepts, luck.between, entries);
        var w2 := Meanwhile(w1, iccid, luck.between);
        CurrentTail(w2, entries);
        if luck.createOk {
          assert !Saved(w2, iccid, e.pdu);
          CurrentHead(w2, entries);
          SaveKeeps(w2, iccid, accepts, entries, row);
          var w3 := w2.(rows := w2.rows + [row]);
          var w4 := w3.(dispatched := w3.dispatched + [row]);
          CurrentTail(w3, entries);
          CurrentTail(w4, entries);
          if luck.crash == NoCrash {
            DeleteKeeps(w4, iccid, accepts, entries, luck.deletion);
          }
        }
      }
    }
  }

  lemma CurrentHead(w: World, entries: seq<Stored>)
    requires entries != [] && Current(w, entries)
    ensures OnModem(w, entries[0].pdu)
  {
    assert entries[0] in entries;
  }

  lemma CurrentTail(w: World, entries: seq<Stored>)
    requires entries != [] && Current(w, entries)
    ensures Current(w, entries[1..])
  {
  }

  lemma {:induction false} PollKeeps(w: World, iccid: string, accepts: string -> bool, entries: seq<Stored>, lucks: seq<Luck>)
    requires |entries| == |lucks| && Safe(w, iccid, accepts) && Current(w, entries)
    ensures Safe(Poll(w, iccid, entries, accepts, lucks), iccid, accepts)
    decreases |entries|
  {
    if entries != [] {
      HandleKeeps(w, iccid, accepts, entries, lucks[0]);
      var h := Handle(w, iccid, entries[0], accepts, lucks[0]);
      if h.alive {
        PollKeeps(h.world, iccid, accepts, entries[1..], lucks[1..]);
      }
    }
  }

  // ----- Whole histories -----

  /** Anything may happen, then the modem is listed and the listing is worked off, possibly up to a
      crash, after which the next round starts over. */
  datatype Round = Round(acts: seq<Act>, entries: seq<Stored>, lucks: seq<Luck>)

  /** What parsing the modem's reply yields: distinct places and what they hold. */
  ghost predicate Lists(w: World, iccid: string, round: Round) {
    |round.entries| == |round.lucks| && Current(Meanwhile(w, iccid, round.acts), round.entries)
  }

  ghost predicate Reaches(w: World, iccid: string, accepts: string -> bool, rounds: seq<Round>, w': World)
    decreases |rounds|
  {
    if rounds == [] then w' == w
    else
      var r := rounds[0];
      Lists(w, iccid, r)
      && Reaches(Poll(Meanwhile(w, iccid, r.acts), iccid, r.entries, accepts, r.lucks), iccid, accepts, rounds[1..], w')
  }

  /** No received message is lost, saved twice or announced twice, over any history of arrivals,
      unreadable messages, database failures, failed or unheard deletions, and crashes, except for
      messages whose rows a user deleted along with the SIM. */
  lemma {:induction false} NothingLostNothingDoubled(w: World, iccid: string, accepts: string -> bool, rounds: seq<Round>, w': World)
    requires Safe(w, iccid, accepts) && Reaches(w, iccid, accepts, rounds, w')
    ensures Safe(w', iccid, accepts)
    decreases |rounds|
  {
    if rounds != [] {
      var r := rounds[0];
      var mid := Meanwhile(w, iccid, r.acts);
      assert Current(w, []);
      MeanwhileKeeps(w, iccid, accepts, r.acts, []);
      PollKeeps(mid, iccid, accepts, r.entries, r.lucks);
      NothingLostNothingDoubled(Poll(mid, iccid, r.entries, accepts, r.lucks), iccid, accepts, rounds[1..], w');
    }
  }

  /** The exception is real: a message still on the modem when its SIM is deleted is saved and
      announced again by the next poll. */
  lemma PurgedIsAnnouncedAgain(w: World, iccid: string, accepts: string -> bool, e: Stored)
    requires Safe(w, iccid, accepts) && Current(w, [e]) && accepts(e.pdu)
    requires ReceivedRow(iccid, e.pdu) in w.dispatched
    ensures var row := ReceivedRow(iccid, e.pdu);
      var h := Handle(w, iccid, e, accepts, Luck([Purge], [], true, true, NoCrash, Deleted));
      h.world.dispatched == w.dispatched + [row] && multiset(h.world.dispatched)[row] >= 2
  {
    hide Safe;
    var w1 := Around(w, iccid, Purge);
    assert [Purge][1..] == [] && Meanwhile(w, iccid, [Purge]) == w1 && Meanwhile(w1, iccid, []) == w1;
    assert ReceivedRow(iccid, e.pdu) !in w1.rows;
    assert multiset(w.dispatched)[ReceivedRow(iccid, e.pdu)] >= 1;
  }

  /** Nobody deletes the SIM meanwhile. */
  predicate Undisturbed(luck: Luck) {
    Purge !in luck.before && Purge !in luck.between
  }

  // ----- When a message is announced again -----

  function Times(w: World, iccid: string, pdu: string): nat {
    multiset(w.dispatched)[ReceivedRow(iccid, pdu)]
  }

  /** On the modem, readable, and without a row. */
  ghost predicate Exposed(w: World, iccid: string, accepts: string -> bool, pdu: string) {
    OnModem(w, pdu) && accepts(pdu) && !Saved(w, iccid, pdu)
  }

  /** No deletion of the SIM, and no new arrival of this message. */
  ghost predicate CalmActs(acts: seq<Act>, pdu: string) {
    Purge !in acts && forall a :: a in acts && a.Arrive? ==> a.pdu != pdu
  }

  ghost predicate Calm(luck: Luck, pdu: string) {
    CalmActs(luck.before, pdu) && CalmActs(luck.between, pdu)
  }

  ghost predicate CalmRounds(rounds: seq<Round>, pdu: string) {
    forall r :: r in rounds ==> CalmActs(r.acts, pdu) && forall l :: l in r.lucks ==> Calm(l, pdu)
  }

  lemma CalmAround(w: World, iccid: string, act: Act, pdu: string)
    requires act != Purge && (act.Arrive? ==> act.pdu != pdu)
    ensures var v := Around(w, iccid, act);
      && v.dispatched == w.dispatched && (Saved(v, iccid, pdu) <==> Saved(w, iccid, pdu))
      && (OnModem(v, pdu) <==> OnModem(w, pdu))
  {
    var v := Around(w, iccid, act);
    if OnModem(w, pdu) {
      var i :| i in w.store && w.store[i] == pdu;
      assert i in v.store && v.store[i] == pdu;
    }
  }

  lemma {:induction false} CalmMeanwhile(w: World, iccid: string, acts: seq<Act>, pdu: string)
    requires CalmActs(acts, pdu)
    ensures var v := Meanwhile(w, iccid, acts);
      && v.dispatched == w.dispatched && (Saved(v, iccid, pdu) <==> Saved(w, iccid, pdu))
      && (OnModem(v, pdu) <==> OnModem(w, pdu))
    decreases |acts|
  {
    hide Saved, OnModem, Around;
    if acts != [] {
      CalmAround(w, iccid, acts[0], pdu);
      CalmMeanwhile(Around(w, iccid, acts[0]), iccid, acts[1..], pdu);
    }
  }

  lemma DeleteHides(w: World, index: int, deletion: Deletion, pdu: string)
    ensures OnModem(Delete(w, index, deletion), pdu) ==> OnModem(w, pdu)
  {
  }

  /** One message handled in calm: only an exposed one is announced, and none becomes exposed. */
  lemma CalmHandle(w: World, iccid: string, accepts: string -> bool, e: Stored, luck: Luck, pdu: string)
    requires Calm(luck, pdu) && Current(w, [e])
    ensures var h := Handle(w, iccid, e, accepts, luck);
      && (!Exposed(w, iccid, accepts, pdu) ==>
            Times(h.world, iccid, pdu) == Times(w, iccid, pdu) && !Exposed(h.world, iccid, accepts, pdu))
      && (Times(h.world, iccid, pdu) > Times(w, iccid, pdu) ==> e.pdu == pdu)
  {
    hide Meanwhile, Delete, Saved, OnModem, Calm, Current;
    assert CalmActs(luck.before, pdu) && CalmActs(luck.between, pdu) by { CalmParts(luck, pdu); }
    CurrentHead(w, [e]);
    var w1 := Meanwhile(w, iccid, luck.before);
    CalmMeanwhile(w, iccid, luck.before, pdu);
    var w2 := Meanwhile(w1, iccid, luck.between);
    CalmMeanwhile(w1, iccid, luck.between, pdu);
    var row := ReceivedRow(iccid, e.pdu);
    SavedMeans(w1, iccid, e.pdu);
    var w3 := w2.(rows := w2.rows + [row]);
    var w4 := w3.(dispatched := w3.dispatched + [row]);
    AppendedRow(w2, iccid, e.pdu, pdu);
    DeletedRow(w1, e.index, luck.deletion, iccid, pdu);
    DeletedRow(w4, e.index, luck.deletion, iccid, pdu);
  }

  lemma CalmParts(luck: Luck, pdu: string)
    requires Calm(luck, pdu)
    ensures CalmActs(luck.before, pdu) && CalmActs(luck.between, pdu)
  {
  }

  lemma SavedMeans(w: World, iccid: string, pdu: string)
    ensures Saved(w, iccid, pdu) <==> ReceivedRow(iccid, pdu) in w.rows
  {
  }

  lemma AppendedRow(w: World, iccid: string, added: string, pdu: string)
    ensures var row := ReceivedRow(iccid, added);
      var v := w.(rows := w.rows + [row]);
      var u := v.(dispatched := v.dispatched + [row]);
      && (Saved(v, iccid, pdu) <==> Saved(w, iccid, pdu) || pdu == added) && (Saved(u, iccid, pdu) <==> Saved(v, iccid, pdu))
      && (OnModem(v, pdu) <==> OnModem(w, pdu)) && (OnModem(u, pdu) <==> OnModem(w, pdu))
      && Times(v, iccid, pdu) == Times(w, iccid, pdu)
      && Times(u, iccid, pdu) == Times(w, iccid, pdu) + if pdu == added then 1 else 0
  {
  }

  lemma DeletedRow(w: World, index: int, deletion: Deletion, iccid: string, pdu: string)
    ensures var v := Delete(w, index, deletion);
      && v.dispatched == w.dispatched && (Saved(v, iccid, pdu) <==> Saved(w, iccid, pdu))
      && (OnModem(v, pdu) ==> OnModem(w, pdu))
  {
  }

  lemma {:induction false} CalmPoll(w: World, iccid: string, accepts: string -> bool, entries: seq<Stored>, lucks: seq<Luck>, pdu: string)
    requires |entries| == |lucks| && Safe(w, iccid, accepts) && Current(w, entries)
    requires !Exposed(w, iccid, accepts, pdu) && forall l :: l in lucks ==> Calm(l, pdu)
    ensures var v := Poll(w, iccid, entries, accepts, lucks);
      Times(v, iccid, pdu) == Times(w, iccid, pdu) && !Exposed(v, iccid, accepts, pdu)
    decreases |entries|
  {
    hide Safe, Exposed, Calm, Handle;
    if entries != [] {
      var h := Handle(w, iccid, entries[0], accepts, lucks[0]);
      assert entries[0] in entries && lucks[0] in lucks && forall l :: l in lucks[1..] ==> l in lucks;
      CalmHandle(w, iccid, accepts, entries[0], lucks[0], pdu);
      HandleKeeps(w, iccid, accepts, entries, lucks[0]);
      if h.alive {
        CalmPoll(h.world, iccid, accepts, entries[1..], lucks[1..], pdu);
      }
    }
  }

  lemma {:induction false} CalmHistory(w: World, iccid: string, accepts: string -> bool, rounds: seq<Round>, w': World, pdu: string)
    requires Safe(w, iccid, accepts) && Reaches(w, iccid, accepts, rounds, w') && CalmRounds(rounds, pdu)
    requires !Exposed(w, iccid, accepts, pdu)
    ensures Times(w', iccid, pdu) == Times(w, iccid, pdu) && !Exposed(w', iccid, accepts, pdu)
    decreases |rounds|
  {
    if rounds != [] {
      var r := rounds[0];
      assert r in rounds && forall x :: x in rounds[1..] ==> x in rounds;
      var mid := Meanwhile(w, iccid, r.acts);
      CalmMeanwhile(w, iccid, r.acts, pdu);
      assert Current(w, []);
      MeanwhileKeeps(w, iccid, accepts, r.acts, []);
      PollKeeps(mid, iccid, accepts, r.entries, r.lucks);
      CalmPoll(mid, iccid, accepts, r.entries, r.lucks, pdu);
      hide Safe, Exposed, Poll;
      CalmHistory(Poll(mid, iccid, r.entries, accepts, r.lucks), iccid, accepts, rounds[1..], w', pdu);
    }
  }

  const GOOD_LUCK := Luck([], [], true, true, NoCrash, Deleted)

  lemma ExposedIsAnnounced(w: World, iccid: string, accepts: string -> bool, e: Stored)
    requires accepts(e.pdu) && !Saved(w, iccid, e.pdu)
    ensures Times(Handle(w, iccid, e, accepts, GOOD_LUCK).world, iccid, e.pdu) == Times(w, iccid, e.pdu) + 1
  {
    assert Meanwhile(w, iccid, []) == w;
  }

  /** Some calm handling of a listed message announces it exactly when it is readable and has no row:
      for a message announced before, exactly when a user's deletion has taken its row. */
  lemma HandlingAnnouncesIff(w: World, iccid: string, accepts: string -> bool, e: Stored)
    requires Current(w, [e])
    ensures (exists luck :: Calm(luck, e.pdu) && Times(Handle(w, iccid, e, accepts, luck).world, iccid, e.pdu) > Times(w, iccid, e.pdu))
      <==> accepts(e.pdu) && !Saved(w, iccid, e.pdu)
  {
    hide Handle, Saved, Calm, Times;
    CurrentHead(w, [e]);
    forall luck | Calm(luck, e.pdu) && Times(Handle(w, iccid, e, accepts, luck).world, iccid, e.pdu) > Times(w, iccid, e.pdu)
      ensures accepts(e.pdu) && !Saved(w, iccid, e.pdu)
    {
      CalmHandle(w, iccid, accepts, e, luck, e.pdu);
    }
    if accepts(e.pdu) && !Saved(w, iccid, e.pdu) {
      ExposedIsAnnounced(w, iccid, accepts, e);
      GoodLuckIsCalm(e.pdu);
    }
  }

  lemma GoodLuckIsCalm(pdu: string)
    ensures Calm(GOOD_LUCK, pdu)
  {
  }

  lemma OneRoundAnnounces(w: World, iccid: string, accepts: string -> bool, pdu: string) returns (rounds: seq<Round>, w': World)
    requires Exposed(w, iccid, accepts, pdu)
    ensures CalmRounds(rounds, pdu) && Reaches(w, iccid, accepts, rounds, w')
    ensures Times(w', iccid, pdu) == Times(w, iccid, pdu) + 1
  {
    var i :| i in w.store && w.store[i] == pdu;
    var e := Stored(i, pdu);
    var round := Round([], [e], [GOOD_LUCK]);
    rounds := [round];
    ExposedIsAnnounced(w, iccid, accepts, e);
    GoodLuckIsCalm(pdu);
    assert Meanwhile(w, iccid, []) == w && Current(w, [e]);
    var h := Handle(w, iccid, e, accepts, GOOD_LUCK);
    w' := Poll(w, iccid, [e], accepts, [GOOD_LUCK]);
    assert [e][1..] == [] && [GOOD_LUCK][1..] == [] && rounds[1..] == [];
    assert h.alive && Poll(h.world, iccid, [], accepts, []) == h.world;
    assert w' == h.world;
    assert Reaches(w', iccid, accepts, [], w');
  }

  /** Over all further histories in which nobody deletes the SIM and the message does not come anew:
      it can be announced, for the first time or again, exactly when it is on the modem, readable
      and without a row now. */
  lemma AnnouncedAgainIff(w: World, iccid: string, accepts: string -> bool, pdu: string)
    requires Safe(w, iccid, accepts)
    ensures (exists rounds, w' :: CalmRounds(rounds, pdu) && Reaches(w, iccid, accepts, rounds, w')
                                  && Times(w', iccid, pdu) > Times(w, iccid, pdu))
      <==> Exposed(w, iccid, accepts, pdu)
  {
    hide Safe, Exposed, CalmRounds, Times, Reaches;
    if Exposed(w, iccid, accepts, pdu) {
      var rounds, w' := OneRoundAnnounces(w, iccid, accepts, pdu);
    } else {
      forall rounds, w' | CalmRounds(rounds, pdu) && Reaches(w, iccid, accepts, rounds, w')
        ensures Times(w', iccid, pdu) <= Times(w, iccid, pdu)
      {
        CalmHistory(w, iccid, accepts, rounds, w', pdu);
      }
    }
  }

  // ----- Saved messages are announced -----

  ghost predicate AllAnnounced(w: World, iccid: string) {
    forall r :: r in w.rows && r.iccid == iccid && r.kind == Received ==> r in w.dispatched
  }

  lemma {:induction false} MeanwhileAnnounces(w: World, iccid: string, acts: seq<Act>)
    requires AllAnnounced(w, iccid)
    ensures AllAnnounced(Meanwhile(w, iccid, acts), iccid)
    decreases |acts|
  {
    if acts != [] {
      MeanwhileAnnounces(Around(w, iccid, acts[0]), iccid, acts[1..]);
    }
  }

  /** Without crashes every saved message is announced: with Safe, exactly once. */
  lemma {:induction false} PollAnnounces(w: World, iccid: string, accepts: string -> bool, entries: seq<Stored>, lucks: seq<Luck>)
    requires |entries| == |lucks| && AllAnnounced(w, iccid)
    requires forall l :: l in lucks ==> l.crash == NoCrash
    ensures AllAnnounced(Poll(w, iccid, entries, accepts, lucks), iccid)
    decreases |entries|
  {
    if entries != [] {
      var w1 := Meanwhile(w, iccid, lucks[0].before);
      MeanwhileAnnounces(w, iccid, lucks[0].before);
      MeanwhileAnnounces(w1, iccid, lucks[0].between);
      assert lucks[0] in lucks && forall l :: l in lucks[1..] ==> l in lucks;
      PollAnnounces(Handle(w, iccid, entries[0], accepts, lucks[0]).world, iccid, accepts, entries[1..], lucks[1..]);
    }
  }

  /** Handling this message inserts a row that was never announced, and the process dies before it
      announces it. */
  ghost predicate DiesUnannounced(w: World, iccid: string, accepts: string -> bool, e: Stored, luck: Luck) {
    var w1 := Meanwhile(w, iccid, luck.before);
    var row := ReceivedRow(iccid, e.pdu);
    && accepts(e.pdu) && luck.countOk && row !in w1.rows && luck.createOk && luck.crash == AfterCreate
    && row !in w.dispatched
  }

  /** The handling of one message leaves a saved message unannounced exactly when it dies in between. */
  lemma HandleAnnouncesIff(w: World, iccid: string, accepts: string -> bool, e: Stored, luck: Luck)
    requires Safe(w, iccid, accepts) && Current(w, [e]) && AllAnnounced(w, iccid)
    ensures AllAnnounced(Handle(w, iccid, e, accepts, luck).world, iccid) <==> !DiesUnannounced(w, iccid, accepts, e, luck)
  {
    hide Safe, Meanwhile;
    var w1 := Meanwhile(w, iccid, luck.before);
    MeanwhileKeeps(w, iccid, accepts, luck.before, [e]);
    MeanwhileAnnounces(w, iccid, luck.before);
    MeanwhileKeeps(w1, iccid, accepts, luck.between, [e]);
    MeanwhileAnnounces(w1, iccid, luck.between);
    if DiesUnannounced(w, iccid, accepts, e, luck) {
      var h := Handle(w, iccid, e, accepts, luck);
      assert ReceivedRow(iccid, e.pdu) in h.world.rows;
    }
  }

  /** Some handling of this poll, the last one it comes to, dies that way. */
  ghost predicate PollDies(w: World, iccid: string, accepts: string -> bool, entries: seq<Stored>, lucks: seq<Luck>)
    requires |entries| == |lucks|
    decreases |entries|
  {
    entries != [] &&
      (DiesUnannounced(w, iccid, accepts, entries[0], lucks[0])
       || (Handle(w, iccid, entries[0], accepts, lucks[0]).alive
           && PollDies(Handle(w, iccid, entries[0], accepts, lucks[0]).world, iccid, accepts, entries[1..], lucks[1..])))
  }

  lemma {:induction false} PollAnnouncesIff(w: World, iccid: string, accepts: string -> bool, entries: seq<Stored>, lucks: seq<Luck>)
    requires |entries| == |lucks| && Safe(w, iccid, accepts) && Current(w, entries) && AllAnnounced(w, iccid)
    ensures AllAnnounced(Poll(w, iccid, entries, accepts, lucks), iccid) <==> !PollDies(w, iccid, accepts, entries, lucks)
    decreases |entries|
  {
    hide Safe, AllAnnounced, DiesUnannounced, Handle;
    if entries != [] {
      var h := Handle(w, iccid, entries[0], accepts, lucks[0]);
      assert entries[0] in entries;
      HandleAnnouncesIff(w, iccid, accepts, entries[0], lucks[0]);
      HandleKeeps(w, iccid, accepts, entries, lucks[0]);
      DyingStops(w, iccid, accepts, entries[0], lucks[0]);
      if h.alive {
        PollAnnouncesIff(h.world, iccid, accepts, entries[1..], lucks[1..]);
      }
    }
  }

  lemma DyingStops(w: World, iccid: string, accepts: string -> bool, e: Stored, luck: Luck)
    ensures DiesUnannounced(w, iccid, accepts, e, luck) ==> !Handle(w, iccid, e, accepts, luck).alive
  {
  }

  /** Such a message is then never announced, as long as its row stays. */
  lemma NeverAnnounced(w: World, iccid: string, accepts: string -> bool, pdu: string, rounds: seq<Round>, w': World)
    requires Safe(w, iccid, accepts) && Saved(w, iccid, pdu) && ReceivedRow(iccid, pdu) !in w.dispatched
    requires Reaches(w, iccid, accepts, rounds, w') && CalmRounds(rounds, pdu)
    ensures ReceivedRow(iccid, pdu) !in w'.dispatched
  {
    hide Safe, Reaches, CalmRounds;
    CalmHistory(w, iccid, accepts, rounds, w', pdu);
  }

  /** A readable message whose handling meets no failure leaves the modem for the table. */
  lemma GoodLuckDelivers(w: World, iccid: string, accepts: string -> bool, e: Stored, luck: Luck)
    requires Safe(w, iccid, accepts) && Current(w, [e]) && accepts(e.pdu)
    requires luck.countOk && luck.createOk && luck.crash == NoCrash && luck.deletion != Refused
    ensures var h := Handle(w, iccid, e, accepts, luck);
      h.alive && Saved(h.world, iccid, e.pdu) && e.index !in h.world.store && e.pdu in h.world.deleted
  {
    hide Safe, Meanwhile;
    MeanwhileKeeps(w, iccid, accepts, luck.before, [e]);
    var w1 := Meanwhile(w, iccid, luck.before);
    MeanwhileKeeps(w1, iccid, accepts, luck.between, [e]);
    var w2 := Meanwhile(w1, iccid, luck.between);
    assert e in [e];
  }

  // ----- From the wire to the table -----

  ghost predicate Grows(w: World, w': World) {
    w.rows <= w'.rows && w.deleted <= w'.deleted
  }

  lemma {:induction false} MeanwhileGrows(w: World, iccid: string, acts: seq<Act>)
    requires Purge !in acts
    ensures Grows(w, Meanwhile(w, iccid, acts))
    decreases |acts|
  {
    if acts != [] {
      MeanwhileGrows(Around(w, iccid, acts[0]), iccid, acts[1..]);
    }
  }

  lemma {:induction false} PollGrows(w: World, iccid: string, accepts: string -> bool, entries: seq<Stored>, lucks: seq<Luck>)
    requires |entries| == |lucks|
    requires forall l :: l in lucks ==> Undisturbed(l)
    ensures Grows(w, Poll(w, iccid, entries, accepts, lucks))
    decreases |entries|
  {
    if entries != [] {
      var w1 := Meanwhile(w, iccid, lucks[0].before);
      assert lucks[0] in lucks && forall l :: l in lucks[1..] ==> l in lucks;
      MeanwhileGrows(w, iccid, lucks[0].before);
      MeanwhileGrows(w1, iccid, lucks[0].between);
      PollGrows(Handle(w, iccid, entries[0], accepts, lucks[0]).world, iccid, accepts, entries[1..], lucks[1..]);
    }
  }

  predicate NothingFails(luck: Luck) {
    luck.countOk && luck.createOk && luck.crash == NoCrash && luck.deletion != Refused && Undisturbed(luck)
  }

  lemma {:induction false} SmoothPollDelivers(w: World, iccid: string, accepts: string -> bool, entries: seq<Stored>, lucks: seq<Luck>)
    requires |entries| == |lucks| && Safe(w, iccid, accepts) && Current(w, entries)
    requires forall l :: l in lucks ==> NothingFails(l)
    ensures var w' := Poll(w, iccid, entries, accepts, lucks);
      forall e :: e in entries && accepts(e.pdu) ==> Saved(w', iccid, e.pdu) && e.pdu in w'.deleted
    decreases |entries|
  {
    hide Safe, Meanwhile, Handle;
    if entries != [] {
      var e := entries[0];
      var h := Handle(w, iccid, e, accepts, lucks[0]);
      var w' := Poll(w, iccid, entries, accepts, lucks);
      assert e in entries && lucks[0] in lucks && forall l :: l in lucks[1..] ==> l in lucks;
      HandleKeeps(w, iccid, accepts, entries, lucks[0]);
      SmoothHandleLives(w, iccid, e, accepts, lucks[0]);
      SmoothPollDelivers(h.world, iccid, accepts, entries[1..], lucks[1..]);
      PollGrows(h.world, iccid, accepts, entries[1..], lucks[1..]);
      if accepts(e.pdu) {
        GoodLuckDelivers(w, iccid, accepts, e, lucks[0]);
      }
      assert forall x :: x in entries ==> x == e || x in entries[1..];
    }
  }

  /** Failures stay local: while the process lives and nobody deletes the SIM, every readable message
      whose own handling meets no failure is saved and deleted, whatever fails for the others. */
  lemma {:induction false} FailuresStayLocal(w: World, iccid: string, accepts: string -> bool, entries: seq<Stored>, lucks: seq<Luck>)
    requires |entries| == |lucks| && Safe(w, iccid, accepts) && Current(w, entries)
    requires forall l :: l in lucks ==> l.crash == NoCrash && Undisturbed(l)
    ensures var w' := Poll(w, iccid, entries, accepts, lucks);
      forall i :: 0 <= i < |entries| && accepts(entries[i].pdu) && NothingFails(lucks[i]) ==>
        Saved(w', iccid, entries[i].pdu) && entries[i].pdu in w'.deleted
    decreases |entries|
  {
    hide Safe, Meanwhile, Handle;
    if entries != [] {
      var e, luck := entries[0], lucks[0];
      var h := Handle(w, iccid, e, accepts, luck);
      var w' := Poll(w, iccid, entries, accepts, lucks);
      assert e in entries && luck in lucks && forall l :: l in lucks[1..] ==> l in lucks;
      HandleKeeps(w, iccid, accepts, entries, luck);
      LivesWithoutCrash(w, iccid, e, accepts, luck);
      FailuresStayLocal(h.world, iccid, accepts, entries[1..], lucks[1..]);
      PollGrows(h.world, iccid, accepts, entries[1..], lucks[1..]);
      if accepts(e.pdu) && NothingFails(luck) {
        GoodLuckDelivers(w, iccid, accepts, e, luck);
      }
      forall i | 0 < i < |entries| && accepts(entries[i].pdu) && NothingFails(lucks[i])
        ensures Saved(w', iccid, entries[i].pdu) && entries[i].pdu in w'.deleted
      {
        assert entries[1..][i - 1] == entries[i] && lucks[1..][i - 1] == lucks[i];
      }
    }
  }

  lemma LivesWithoutCrash(w: World, iccid: string, e: Stored, accepts: string -> bool, luck: Luck)
    requires luck.crash == NoCrash
    ensures Handle(w, iccid, e, accepts, luck).alive
  {
  }

  /** Whatever else happens, a message that cannot be read or looked up stays on the modem. */
  lemma {:induction false} RetainedOnModem(w: World, iccid: string, accepts: string -> bool, entries: seq<Stored>, lucks: seq<Luck>, k: nat)
    requires |entries| == |lucks| && Safe(w, iccid, accepts) && Current(w, entries) && k < |entries|
    requires !accepts(entries[k].pdu) || !lucks[k].countOk
    ensures var w' := Poll(w, iccid, entries, accepts, lucks);
      entries[k].index in w'.store && w'.store[entries[k].index] == entries[k].pdu
    decreases |entries|
  {
    hide Safe, Meanwhile;
    var e, luck := entries[0], lucks[0];
    var h := Handle(w, iccid, e, accepts, luck);
    assert e in entries && entries[k] in entries;
    HandleLeaves(w, iccid, accepts, entries, luck, k);
    if h.alive {
      hide Handle;
      HandleKeeps(w, iccid, accepts, entries, luck);
      if k > 0 {
        RetainedOnModem(h.world, iccid, accepts, entries[1..], lucks[1..], k - 1);
      } else {
        PollLeaves(h.world, iccid, accepts, entries[1..], lucks[1..], e);
      }
    }
  }

  /** The place of a message is touched by nobody's handling but its own. */
  lemma HandleLeaves(w: World, iccid: string, accepts: string -> bool, entries: seq<Stored>, luck: Luck, k: nat)
    requires Safe(w, iccid, accepts) && Current(w, entries) && k < |entries|
    requires k == 0 ==> !accepts(entries[0].pdu) || !luck.countOk
    ensures var h := Handle(w, iccid, entries[0], accepts, luck).world;
      entries[k].index in h.store && h.store[entries[k].index] == entries[k].pdu
  {
    hide Safe, Meanwhile;
    MeanwhileKeeps(w, iccid, accepts, luck.before, entries);
    var w1 := Meanwhile(w, iccid, luck.before);
    MeanwhileKeeps(w1, iccid, accepts, luck.between, entries);
    assert entries[k] in entries && entries[0] in entries;
  }

  lemma {:induction false} PollLeaves(w: World, iccid: string, accepts: string -> bool, entries: seq<Stored>, lucks: seq<Luck>, e: Stored)
    requires |entries| == |lucks| && Safe(w, iccid, accepts) && Current(w, [e] + entries)
    ensures var w' := Poll(w, iccid, entries, accepts, lucks); e.index in w'.store && w'.store[e.index] == e.pdu
    decreases |entries|
  {
    hide Safe;
    assert ([e] + entries)[0] == e;
    assert e in [e] + entries;
    if entries != [] {
      var h := Handle(w, iccid, entries[0], accepts, lucks[0]);
      var order := [entries[0], e] + entries[1..];
      Reordered(w, e, entries);
      HandleLeaves(w, iccid, accepts, order, lucks[0], 1);
      HandleKeeps(w, iccid, accepts, order, lucks[0]);
      assert order[1..] == [e] + entries[1..];
      if h.alive {
        PollLeaves(h.world, iccid, accepts, entries[1..], lucks[1..], e);
      }
    }
  }

  lemma Reordered(w: World, e: Stored, entries: seq<Stored>)
    requires entries != [] && Current(w, [e] + entries)
    ensures Current(w, [entries[0], e] + entries[1..])
  {
    var was, now := [e] + entries, [entries[0], e] + entries[1..];
    assert now[0] == was[1] && now[1] == was[0] && forall i :: 2 <= i < |was| ==> now[i] == was[i];
    forall i, j | 0 <= i < j < |now| ensures now[i].index != now[j].index {
      var a, b := if i == 0 then 1 else if i == 1 then 0 else i, if j == 1 then 0 else j;
      assert now[i] == was[a] && now[j] == was[b] && a != b;
    }
    assert forall x :: x in now ==> x in was;
  }

  lemma SmoothHandleLives(w: World, iccid: string, e: Stored, accepts: string -> bool, luck: Luck)
    requires NothingFails(luck)
    ensures Handle(w, iccid, e, accepts, luck).alive
  {
  }

  lemma {:induction false} EntriesAt(store: seq<ModemMessage>)
    ensures |Entries(store)| == |store|
    ensures forall i :: 0 <= i < |store| ==> Entries(store)[i] == Stored(store[i].index, store[i].pdu)
  {
    if store != [] {
      EntriesAt(store[1..]);
    }
  }

  /** The whole way: a modem's listing, cut into reads at will and with unsolicited lines in it, is
      framed, collected, parsed and worked off; if nothing fails, every readable message it held
      ends up in the table and is deleted from the modem. */
  lemma WireToTable(w: World, iccid: string, accepts: string -> bool, store: seq<ModemMessage>, body: seq<string>,
                    pads: seq<string>, answers: seq<Read>, limit: nat, why: Interrupt, calling: bool, lucks: seq<Luck>)
    requires Safe(w, iccid, accepts)
    requires forall m :: m in store ==> Listable(m) && m.index in w.store && w.store[m.index] == m.pdu
    requires forall i, j :: 0 <= i < j < |store| ==> store[i].index != store[j].index
    requires WithoutUrcs(body, calling) == Listing(store)
    requires forall l :: l in body && IsUrc(l, calling) ==> Clean(l) && !Contains(l, "ERROR")
    requires |pads| == |body| + 1 && forall p :: p in pads ==> Blank(p)
    requires Broken !in answers && Framing.Received(answers) == Wire(body + ["OK"], pads) && limit > |body|
    requires |lucks| == |store| && forall l :: l in lucks ==> NothingFails(l)
    ensures var reply := Collect("AT+CMGL=4", Consume(EMPTY, answers).out, limit, why, []).reply;
      reply.Ok? &&
      var entries := ParseResponse(reply.text, calling);
      |entries| == |lucks| &&
      var w' := Poll(w, iccid, entries, accepts, lucks);
      Safe(w', iccid, accepts)
      && forall m :: m in store && accepts(m.pdu) ==> Saved(w', iccid, m.pdu) && m.pdu in w'.deleted
  {
    hide Safe, Listable, Clean, Contains, Collect, Consume, Wire, IsUrc;
    ListingRoundTrip(store, body, pads, answers, limit, why, calling);
    EntriesAt(store);
    var entries := Entries(store);
    assert Current(w, entries);
    PollKeeps(w, iccid, accepts, entries, lucks);
    SmoothPollDelivers(w, iccid, accepts, entries, lucks);
    forall m | m in store ensures Stored(m.index, m.pdu) in entries {
      var i :| 0 <= i < |store| && store[i] == m;
      assert entries[i] in entries;
    }
  }
}
