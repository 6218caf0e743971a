/** internal/slotlog/infer.go: guessing the slot of a new modem from the calibrated ones. On a
    tray wired once, slot number plus COM number is the same everywhere. */
module SlotInference {
  import opened Basics
  import opened GoStrings

  function ComNumber(port: string): Option<int> {
    var upper := ToUpper(TrimSpace(port));
    var p := if HasPrefix(upper, "\\.\\") then upper[3..] else upper;
    if HasPrefix(p, "COM") then Atoi(p[3..]) else None
  }

  lemma PortText(p: string, n: nat)
    requires p != "" && !IsSpace(p[0]) && forall c :: c in p ==> UpperChar(c) == c
    ensures TrimSpace(p + Decimal(n)) == p + Decimal(n) && ToUpper(p + Decimal(n)) == p + Decimal(n)
  {
    var digits := Decimal(n);
    DecimalDigits(n);
    assert (p + digits)[|p + digits| - 1] == digits[|digits| - 1];
    TrimPadded("", p + digits);
    assert "" + (p + digits) == p + digits;
  }

  lemma ComNumberOf(n: nat)
    requires n <= MAX_INT64
    ensures ComNumber("COM" + Decimal(n)) == Some(n) && "COM" + Decimal(n) != ""
  {
    hide Decimal, Atoi, TrimSpace, ToUpper;
    AtoiDecimal(n);
    PortText("COM", n);
    var port := "COM" + Decimal(n);
    assert port[..3] == "COM" && port[3..] == Decimal(n) && port[0] == 'C';
  }

  const DEVICE := "\\\\.\\" // how Windows device paths begin

  /** The prefix taken off is one backslash short of a device path's, so such a path never names a
      COM port: it casts no vote, and its modem is given no slot. */
  lemma DevicePathIsNoComPort(rest: string, known: map<int, string>, r: Option<int>)
    ensures ComNumber(DEVICE + rest) == None
    ensures IsInferred(known, DEVICE + rest, r) ==> r == None
    ensures forall s :: s in known && known[s] == DEVICE + rest ==> s !in Voters(known)
  {
    var path := DEVICE + rest;
    assert path[0] == '\\' && path[1] == '\\';
    TrimRightKeepsFirst(path);
    TrimRightPrefix(path);
    var upper := ToUpper(TrimSpace(path));
    assert |upper| > 1 ==> upper[1] == '\\';
    assert upper[0] == '\\';
  }

  lemma ShortPrefixIsDropped(n: nat)
    requires n <= MAX_INT64
    ensures ComNumber("\\.\\COM" + Decimal(n)) == Some(n)
  {
    hide Decimal, Atoi, TrimSpace, ToUpper;
    var digits := Decimal(n);
    AtoiDecimal(n);
    PortText("\\.\\COM", n);
    assert "\\.\\COM" + digits == "\\.\\" + ("COM" + digits);
    assert ("COM" + digits)[..3] == "COM" && ("COM" + digits)[3..] == digits;
  }

  /** Small letters and white space around the name make no difference. */
  lemma AnyCaseNamesAPort(before: string, n: nat, after: string)
    requires Blank(before) && Blank(after) && n <= MAX_INT64
    ensures ComNumber(before + "com" + Decimal(n) + after) == Some(n)
  {
    var digits := Decimal(n);
    DecimalDigits(n);
    AtoiDecimal(n);
    var name := "com" + digits;
    assert before + "com" + digits + after == before + name + after;
    hide Decimal, Atoi;
    assert name[|name| - 1] == digits[|digits| - 1];
    TrimBoth(before, name, after);
    hide TrimSpace;
    assert ToUpper(name) == "COM" + digits;
    assert !HasPrefix("COM" + digits, "\\.\\") by {
      assert ("COM" + digits)[0] == 'C' && "\\.\\"[0] == '\\';
    }
    assert ("COM" + digits)[..3] == "COM" && ("COM" + digits)[3..] == digits;
  }

  /** Calibrated slots whose last known port is a COM port. */
  function Voters(known: map<int, string>): set<int> {
    set s | s in known && ComNumber(known[s]).Some?
  }

  function Offset(known: map<int, string>, s: int): int
    requires s in Voters(known)
  {
    Wrap64(s + ComNumber(known[s]).value)
  }

  function Supporters(known: map<int, string>, off: int): set<int> {
    set s | s in Voters(known) && Offset(known, s) == off
  }

  function Votes(known: map<int, string>, off: int): nat {
    |Supporters(known, off)|
  }

  /** Most votes; among equals, the smallest offset. */
  ghost predicate Wins(known: map<int, string>, off: int) {
    && Votes(known, off) > 0
    && forall o :: Votes(known, o) <= Votes(known, off) && (Votes(known, o) == Votes(known, off) ==> off <= o)
  }

  /** The slot an offset stands for, if a SIM could be there. */
  function SlotAt(known: map<int, string>, off: int, com: int): Option<int> {
    var slot := Wrap64(off - com);
    if 1 <= slot <= 32 && slot !in known then Some(slot) else None
  }

  ghost predicate IsInferred(known: map<int, string>, port: string, r: Option<int>) {
    var com := ComNumber(port);
    if com.None? || |known| < 2 || Voters(known) == {} then r == None
    else exists off :: Wins(known, off) && r == if Votes(known, off) < 2 then None else SlotAt(known, off, com.value)
  }

  // ----- The program -----

  /** Supporters among the slots seen so far. */
  function Tally(known: map<int, string>, off: int, seen: set<int>): nat {
    |Supporters(known, off) * seen|
  }

  lemma TallyAll(known: map<int, string>, off: int)
    ensures Tally(known, off, known.Keys) == Votes(known, off) && Tally(known, off, {}) == 0
  {
    assert Supporters(known, off) * known.Keys == Supporters(known, off);
  }

  lemma TallyOneMore(known: map<int, string>, off: int, seen: set<int>, s: int)
    requires s in known && s !in seen
    ensures Tally(known, off, seen + {s}) == Tally(known, off, seen)
      + if s in Voters(known) && Offset(known, s) == off then 1 else 0
  {
    assert Supporters(known, off) * (seen + {s}) ==
      (Supporters(known, off) * seen) + (if s in Supporters(known, off) then {s} else {});
  }

  /** votes holds the tallies that are not zero. */
  ghost predicate Counts(known: map<int, string>, seen: set<int>, votes: map<int, nat>) {
    && (forall off :: off in votes <==> Tally(known, off, seen) > 0)
    && (forall off :: off in votes ==> votes[off] == Tally(known, off, seen))
  }

  function Vote(votes: map<int, nat>, off: int): map<int, nat> {
    votes[off := (if off in votes then votes[off] else 0) + 1]
  }

  lemma CountOneMore(known: map<int, string>, seen: set<int>, s: int, votes: map<int, nat>)
    requires s in known && s !in seen && Counts(known, seen, votes)
    ensures Counts(known, seen + {s}, if s in Voters(known) then Vote(votes, Offset(known, s)) else votes)
  {
    hide Tally;
    forall off
      ensures Tally(known, off, seen + {s}) == Tally(known, off, seen)
        + if s in Voters(known) && Offset(known, s) == off then 1 else 0
    {
      TallyOneMore(known, off, seen, s);
    }
  }

  method CountVotes(known: map<int, string>) returns (votes: map<int, nat>)
    ensures forall off :: off in votes <==> Votes(known, off) > 0
    ensures forall off :: off in votes ==> votes[off] == Votes(known, off)
  {
    hide Tally, Votes, ComNumber, Wrap64;
    forall off ensures Tally(known, off, known.Keys) == Votes(known, off) && Tally(known, off, {}) == 0 {
      TallyAll(known, off);
    }
    votes := map[];
    var rest := known.Keys;
    assert known.Keys - rest == {};
    while rest != {}
      invariant rest <= known.Keys
      invariant Counts(known, known.Keys - rest, votes)
      decreases rest
    {
      var s := NextKey(rest);
      CountOneMore(known, known.Keys - rest, s, votes);
      assert known.Keys - (rest - {s}) == (known.Keys - rest) + {s};
      rest := rest - {s};
      var c := ComNumber(known[s]);
      if c.Some? {
        votes := Vote(votes, Wrap64(s + c.value));
      }
    }
    assert known.Keys - rest == known.Keys;
  }

  lemma VotersVote(known: map<int, string>, votes: map<int, nat>)
    requires forall off :: off in votes <==> Votes(known, off) > 0
    ensures Voters(known) == {} <==> votes == map[]
  {
    forall s | s in Voters(known) ensures votes != map[] {
      assert s in Supporters(known, Offset(known, s));
      assert Votes(known, Offset(known, s)) > 0;
      assert Offset(known, s) in votes;
    }
    forall off | off in votes ensures Voters(known) != {} {
      assert Supporters(known, off) != {};
      assert Supporters(known, off) <= Voters(known);
    }
  }

  /** The scan for the winner, over the votes in whatever order the map yields them. */
  method Winner(known: map<int, string>, votes: map<int, nat>) returns (bestOff: int, best: nat)
    requires forall off :: off in votes <==> Votes(known, off) > 0
    requires forall off :: off in votes ==> votes[off] == Votes(known, off)
    ensures best == 0 <==> votes == map[]
    ensures best > 0 ==> Wins(known, bestOff) && best == Votes(known, bestOff)
  {
    hide Votes;
    bestOff, best := 0, 0;
    var rest := votes.Keys;
    while rest != {}
      invariant rest <= votes.Keys
      invariant best == 0 ==> rest == votes.Keys
      invariant best > 0 ==> bestOff in votes && best == votes[bestOff]
      invariant best > 0 ==> forall o :: o in votes && o !in rest ==>
        votes[o] <= best && (votes[o] == best ==> bestOff <= o)
      decreases rest
    {
      var off := NextKey(rest);
      assert votes[off] > 0;
      rest := rest - {off};
      if votes[off] > best || (votes[off] == best && off < bestOff) {
        bestOff, best := off, votes[off];
      }
    }
    if best > 0 {
      forall o ensures Votes(known, o) <= best && (Votes(known, o) == best ==> bestOff <= o) {
        if o !in votes {
          assert Votes(known, o) == 0;
        }
      }
    }
  }

  method InferSlot(known: map<int, string>, port: string) returns (slot: Option<int>)
    ensures IsInferred(known, port, slot)
  {
    hide Votes, Wrap64;
    var com := ComNumber(port);
    if com.None? || |known| < 2 {
      return None;
    }
    var votes := CountVotes(known);
    VotersVote(known, votes);
    var bestOff, best := Winner(known, votes);
    if best < 2 {
      return None;
    }
    var s := Wrap64(bestOff - com.value);
    if s < 1 || s > 32 {
      return None;
    }
    if s in known {
      return None;
    }
    slot := Some(s);
  }

  // ----- What a guess is worth -----

  /** The rules above leave one answer, so the order in which Go walks its maps does not matter. */
  lemma InferenceIsUnique(known: map<int, string>, port: string, a: Option<int>, b: Option<int>)
    requires IsInferred(known, port, a) && IsInferred(known, port, b)
    ensures a == b
  {
    hide Votes;
    if ComNumber(port).Some? && |known| >= 2 && Voters(known) != {} {
      var x :| Wins(known, x) && a == if Votes(known, x) < 2 then None else SlotAt(known, x, ComNumber(port).value);
      var y :| Wins(known, y) && b == if Votes(known, y) < 2 then None else SlotAt(known, y, ComNumber(port).value);
      assert Votes(known, x) == Votes(known, y);
      assert x == y;
    }
  }

  lemma InferredSlotIsFree(known: map<int, string>, port: string, r: Option<int>)
    requires IsInferred(known, port, r) && r.Some?
    ensures 1 <= r.value <= 32 && r.value !in known
    ensures ComNumber(port).Some? && exists off :: Votes(known, off) >= 2 && r == SlotAt(known, off, ComNumber(port).value)
  {
    hide Votes;
    var off :| Wins(known, off) && r == if Votes(known, off) < 2 then None else SlotAt(known, off, ComNumber(port).value);
    assert Votes(known, off) >= 2;
  }

  /** When at least two and more than half of the ports that can vote agree on slot + COM = k, the
      answer is k - COM if that slot exists and is free, and no slot otherwise. */
  lemma MajorityDecides(known: map<int, string>, port: string, k: int, r: Option<int>)
    requires IsInferred(known, port, r) && ComNumber(port).Some?
    requires Votes(known, k) >= 2 && 2 * Votes(known, k) > |Voters(known)|
    ensures r == SlotAt(known, k, ComNumber(port).value)
  {
    hide Wrap64;
    SubsetSize(Supporters(known, k), Voters(known));
    SubsetSize(Voters(known), known.Keys);
    assert |known| == |known.Keys|;
    var off :| Wins(known, off) && r == if Votes(known, off) < 2 then None else SlotAt(known, off, ComNumber(port).value);
    if off != k {
      assert Votes(known, off) >= Votes(known, k);
      assert Supporters(known, off) * Supporters(known, k) == {};
      SubsetSize(Supporters(known, off) + Supporters(known, k), Voters(known));
      assert false;
    }
  }

  /** The slots whose port, added to the slot, makes off. */
  ghost function Agreeing(known: map<int, string>, off: int): set<int> {
    set s | s in known && ComNumber(known[s]).Some? && Wrap64(s + ComNumber(known[s]).value) == off
  }

  /** An offset that no other beats, and none below it equals, decides if two slots agree on it: slot
      off - COM, from 1 up to and including 32, if it is free. */
  lemma PluralityDecides(known: map<int, string>, port: string, off: int, r: Option<int>)
    requires IsInferred(known, port, r) && ComNumber(port).Some?
    requires |Agreeing(known, off)| >= 2
    requires forall o :: |Agreeing(known, o)| <= |Agreeing(known, off)|
    requires forall o :: o < off ==> |Agreeing(known, o)| < |Agreeing(known, off)|
    ensures var slot := Wrap64(off - ComNumber(port).value);
      r == if 1 <= slot <= 32 && slot !in known then Some(slot) else None
  {
    VotesAgree(known);
    TwoAgreeing(known, off);
    SomeVote(known, off);
    hide Agreeing, Voters, ComNumber, Votes;
    forall x | Wins(known, x) ensures x == off {
      WinnerIs(known, off, x);
    }
    OnlyWinner(known, port, off, r);
    hide IsInferred, Wins;
  }

  lemma OnlyWinner(known: map<int, string>, port: string, off: int, r: Option<int>)
    requires IsInferred(known, port, r) && ComNumber(port).Some? && |known| >= 2 && Voters(known) != {}
    requires Votes(known, off) >= 2 && forall x :: Wins(known, x) ==> x == off
    ensures r == SlotAt(known, off, ComNumber(port).value)
  {
    hide Wins, Votes, Voters, ComNumber, SlotAt;
  }

  lemma WinnerIs(known: map<int, string>, off: int, x: int)
    requires Wins(known, x)
    requires forall o :: |Agreeing(known, o)| <= |Agreeing(known, off)|
    requires forall o :: o < off ==> |Agreeing(known, o)| < |Agreeing(known, off)|
    ensures x == off
  {
    VotesAgree(known);
    hide Votes, Agreeing;
    assert Votes(known, off) <= Votes(known, x) && |Agreeing(known, x)| <= |Agreeing(known, off)|;
  }

  lemma VotesAgree(known: map<int, string>)
    ensures forall o :: Votes(known, o) == |Agreeing(known, o)|
  {
    hide ComNumber, Wrap64;
    forall o ensures Votes(known, o) == |Agreeing(known, o)| {
      assert Supporters(known, o) == Agreeing(known, o);
    }
  }

  lemma TwoAgreeing(known: map<int, string>, off: int)
    requires |Agreeing(known, off)| >= 2
    ensures |known| >= 2
  {
    SubsetSize(Agreeing(known, off), known.Keys);
    assert |known| == |known.Keys|;
  }

  lemma SomeVote(known: map<int, string>, off: int)
    requires Votes(known, off) > 0
    ensures Voters(known) != {} && Supporters(known, off) <= Voters(known)
  {
    assert Supporters(known, off) != {};
  }

  /** Fewer than two slots agreeing on anything: no guess. */
  lemma NoPairNoGuess(known: map<int, string>, port: string, r: Option<int>)
    requires IsInferred(known, port, r) && forall o :: |Agreeing(known, o)| < 2
    ensures r == None
  {
    VotesAgree(known);
    hide Votes, Agreeing, SlotAt;
  }

  lemma AllAgree(known: map<int, string>, k: nat)
    requires k <= MAX_INT64 && |known| >= 2
    requires forall s :: s in known ==> 0 <= s <= k && ComNumber(known[s]) == Some(k - s)
    ensures |Agreeing(known, k)| >= 2 && forall o :: o != k ==> |Agreeing(known, o)| == 0
  {
    hide ComNumber;
    forall s | s in known ensures Wrap64(s + ComNumber(known[s]).value) == k {
      assert s + (k - s) == k;
    }
    hide Wrap64;
    assert Agreeing(known, k) == known.Keys;
    assert |known| == |known.Keys|;
    forall o | o != k ensures Agreeing(known, o) == {} {
    }
  }

  /** On a tray wired once, every calibrated slot s on port COM(k - s): a new modem on COMc gets slot
      k - c, whenever that is a free slot from 1 to 32, and none otherwise. */
  lemma LinearTray(known: map<int, string>, k: nat, c: nat, r: Option<int>)
    requires |known| >= 2 && k <= MAX_INT64 && c <= MAX_INT64
    requires forall s :: s in known ==> 0 <= s <= k && known[s] == "COM" + Decimal(k - s)
    requires IsInferred(known, "COM" + Decimal(c), r)
    ensures r == if 1 <= k - c <= 32 && k - c !in known then Some(k - c) else None
  {
    hide ComNumber, Decimal, IsInferred;
    forall s | s in known ensures ComNumber(known[s]) == Some(k - s) {
      ComNumberOf(k - s);
    }
    ComNumberOf(c);
    LinearPorts(known, k, "COM" + Decimal(c), c, r);
  }

  lemma LinearPorts(known: map<int, string>, k: nat, port: string, c: nat, r: Option<int>)
    requires |known| >= 2 && k <= MAX_INT64 && c <= MAX_INT64 && ComNumber(port) == Some(c)
    requires forall s :: s in known ==> 0 <= s <= k && ComNumber(known[s]) == Some(k - s)
    requires IsInferred(known, port, r)
    ensures r == if 1 <= k - c <= 32 && k - c !in known then Some(k - c) else None
  {
    hide ComNumber, Agreeing, IsInferred;
    AllAgree(known, k);
    PluralityDecides(known, port, k, r);
    assert Wrap64(k - c) == k - c;
  }

  lemma SubsetSize(a: set<int>, b: set<int>)
    requires a <= b
    ensures |a| <= |b|
  {
    assert b == a + (b - a);
  }
}
