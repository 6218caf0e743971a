/** parseStoredSMS in internal/worker/worker_logic.go, and the way of a stored message from the
    modem's listing (AT+CMGL in PDU mode, section 4.1 of 3GPP TS 27.005) to its parsed entry. */
module SmsListing {
  import opened Basics
  import opened GoStrings
  import opened Framing
  import opened AtSession

  datatype Stored = Stored(index: int, pdu: string)

  predicate IsHexDigit(c: char) {
    '0' <= c <= '9' || 'a' <= c <= 'f' || 'A' <= c <= 'F'
  }

  /** hex.DecodeString accepts s. */
  predicate IsHex(s: string) {
    |s| % 2 == 0 && forall i :: 0 <= i < |s| ==> IsHexDigit(s[i])
  }

  // ----- Parsing -----

  /** index is the message whose PDU comes next, or -1. */
  datatype Parser = Parser(index: int, entries: seq<Stored>)

  /** The index in a +CMGL: line, or -1. */
  function HeaderIndex(line: string): int
    requires HasPrefix(line, "+CMGL:")
  {
    var n := Atoi(TrimSpace(Split(TrimSpace(line[6..]), ',')[0]));
    if n.Some? && n.value >= 0 then n.value else -1
  }

  function ParseLine(p: Parser, raw: string, calling: bool): Parser {
    var line := TrimSpace(raw);
    if HasPrefix(line, "+CMGL:") then p.(index := HeaderIndex(line))
    else if line == "" || IsUrc(line, calling) || p.index < 0 then p
    else Parser(-1, if IsHex(line) then p.entries + [Stored(p.index, line)] else p.entries)
  }

  function ParseLines(p: Parser, lines: seq<string>, calling: bool): Parser
    decreases |lines|
  {
    if lines == [] then p else ParseLines(ParseLine(p, lines[0], calling), lines[1..], calling)
  }

  function ParseResponse(response: string, calling: bool): seq<Stored> {
    ParseLines(Parser(-1, []), Split(response, '\n'), calling).entries
  }

  method ParseStoredSMS(response: string, calling: bool) returns (entries: seq<Stored>)
    ensures entries == ParseResponse(response, calling)
  {
    entries := [];
    var index := -1;
    var lines := Split(response, '\n');
    for i := 0 to |lines|
      invariant ParseLines(Parser(index, entries), lines[i..], calling) == ParseLines(Parser(-1, []), lines, calling)
    {
      assert lines[i..][1..] == lines[i + 1..];
      var line := TrimSpace(lines[i]);
      if HasPrefix(line, "+CMGL:") {
        index := -1;
        var fields := Split(TrimSpace(line[6..]), ',');
        var n := Atoi(TrimSpace(fields[0]));
        if n.Some? && n.value >= 0 {
          index := n.value;
        }
        continue;
      }
      if line == "" || IsUrc(line, calling) {
        continue;
      }
      if index >= 0 {
        if IsHex(line) {
          entries := entries + [Stored(index, line)];
        }
        index := -1;
      }
    }
  }

  // ----- What a modem lists -----

  /** One message in the modem's store; rest is what follows the index in its header. */
  datatype ModemMessage = ModemMessage(index: nat, rest: string, pdu: string)

  function Header(m: ModemMessage): string {
    "+CMGL: " + Decimal(m.index) + "," + m.rest
  }

  function Listing(store: seq<ModemMessage>): seq<string> {
    if store == [] then [] else [Header(store[0]), store[0].pdu] + Listing(store[1..])
  }

  function Entries(store: seq<ModemMessage>): seq<Stored> {
    if store == [] then [] else [Stored(store[0].index, store[0].pdu)] + Entries(store[1..])
  }

  /** What can be listed: an index that fits, a non-empty hexadecimal PDU, and a header that is a
      proper line without the word that would end the reply. */
  predicate Listable(m: ModemMessage) {
    && m.index <= MAX_INT64 && m.pdu != "" && IsHex(m.pdu)
    && Clean(Header(m)) && !Contains(Header(m), "ERROR")
  }

  function WithoutUrcs(lines: seq<string>, calling: bool): seq<string> {
    if lines == [] then []
    else (if IsUrc(lines[0], calling) then [] else [lines[0]]) + WithoutUrcs(lines[1..], calling)
  }

  // ----- Lines are told apart -----

  lemma TrimClean(l: string)
    requires Trimmed(l)
    ensures TrimSpace(l) == l
  {
    TrimPadded("", l);
    assert "" + l == l;
  }

  lemma ContainsChar(s: string, sub: string, k: nat)
    requires Contains(s, sub) && k < |sub|
    ensures sub[k] in s
  {
    var i :| 0 <= i <= |s| && sub <= s[i..];
    assert s[i..][k] == s[i + k];
  }

  lemma HexLine(s: string, calling: bool)
    requires s != "" && IsHex(s)
    ensures Clean(s) && !IsUrc(s, calling) && !HasPrefix(s, "+CMGL:")
    ensures s != "OK" && !Contains(s, "ERROR")
  {
    assert IsHexDigit(s[0]) && IsHexDigit(s[|s| - 1]);
    TrimClean(s);
    if Contains(s, "ERROR") {
      ContainsChar(s, "ERROR", 1);
    }
    var u := ToUpper(s);
    forall i | 0 <= i < |s| ensures u[i] == UpperChar(s[i]) && IsHexDigit(u[i]) {
    }
    assert "NO CARRIER"[0] == 'N' && "NO ANSWER"[0] == 'N' && "NO DIALTONE"[0] == 'N';
    assert "RING"[0] == 'R' && "BUSY"[1] == 'U' && "OK"[0] == 'O';
    assert "+CLCC:"[0] == '+' && "+QIND:"[0] == '+' && "+CMGL:"[0] == '+';
    assert "+CMTI:"[0] == '+' && "+CREG:"[0] == '+' && "+CUSD:"[0] == '+';
  }

  lemma HeaderLine(m: ModemMessage, calling: bool)
    requires Listable(m)
    ensures HasPrefix(Header(m), "+CMGL:") && !IsUrc(Header(m), calling) && Header(m) != "OK"
    ensures TrimSpace(Header(m)) == Header(m) && HeaderIndex(Header(m)) == m.index
  {
    var h := Header(m);
    TrimClean(h);
    assert h[..7] == "+CMGL: " && h[1] == 'C' && h[2] == 'M' && h[3] == 'G';
    var u := ToUpper(h);
    assert u[0] == '+' && u[1] == 'C' && u[2] == 'M' && u[3] == 'G';
    assert "+CMTI:"[3] == 'T' && "+CREG:"[2] == 'R' && "+CUSD:"[2] == 'U' && "+CLCC:"[2] == 'L' && "+QIND:"[1] == 'Q';
    HeaderIndexIs(m);
  }

  lemma HeaderIndexIs(m: ModemMessage)
    requires Listable(m)
    ensures HasPrefix(Header(m), "+CMGL:") && HeaderIndex(Header(m)) == m.index
  {
    hide Atoi, Split, TrimSpace, Contains, IsHex, Decimal;
    var h, d := Header(m), Decimal(m.index);
    DecimalDigits(m.index);
    var body := d + "," + m.rest;
    assert h == "+CMGL: " + body && h[6..] == " " + body;
    assert body[|body| - 1] == h[|h| - 1];
    TrimPadded(" ", body);
    assert ',' !in d;
    SplitFirst(d, m.rest, ',');
    assert Trimmed(d);
    TrimClean(d);
    AtoiDecimal(m.index);
  }

  // ----- The round trip -----

  lemma ParsesOneLine(p: Parser, l: string, m: ModemMessage, calling: bool)
    ensures IsUrc(l, calling) && Clean(l) && !HasPrefix(l, "+CMGL:") ==> ParseLine(p, l, calling) == p
    ensures Listable(m) ==> ParseLine(p, Header(m), calling) == p.(index := m.index)
    ensures Listable(m) && p.index == m.index ==>
      ParseLine(p, m.pdu, calling) == Parser(-1, p.entries + [Stored(m.index, m.pdu)])
  {
    hide IsUrc, HeaderIndex;
    if Clean(l) {
      TrimClean(l);
    }
    if Listable(m) {
      HeaderLine(m, calling);
      HexLine(m.pdu, calling);
      TrimClean(m.pdu);
    }
  }

  lemma FilterHead(lines: seq<string>, calling: bool)
    requires lines != []
    ensures var all, rest := WithoutUrcs(lines, calling), WithoutUrcs(lines[1..], calling);
      if IsUrc(lines[0], calling) then all == rest else all != [] && all[0] == lines[0] && all[1..] == rest
  {
    hide IsUrc;
    var rest := WithoutUrcs(lines[1..], calling);
    assert [] + rest == rest && ([lines[0]] + rest)[1..] == rest;
  }

  lemma EntriesHead(got: seq<Stored>, store: seq<ModemMessage>)
    requires store != []
    ensures got + Entries(store) == (got + [Stored(store[0].index, store[0].pdu)]) + Entries(store[1..])
  {
  }

  /** Parsing a listing with unsolicited lines anywhere in it. If a header has just been read, its
      PDU comes first. */
  lemma {:induction false} ListingParses(p: Parser, lines: seq<string>, store: seq<ModemMessage>, calling: bool)
    requires forall m :: m in store ==> Listable(m)
    requires forall l :: l in lines && IsUrc(l, calling) ==> Clean(l) && !HasPrefix(l, "+CMGL:")
    requires if p.index < 0 then WithoutUrcs(lines, calling) == Listing(store)
             else store != [] && p.index == store[0].index
                  && WithoutUrcs(lines, calling) == [store[0].pdu] + Listing(store[1..])
    ensures ParseLines(p, lines, calling).entries == p.entries + Entries(store)
    ensures ParseLines(p, lines, calling).index < 0
    decreases |lines|
  {
    hide IsUrc, ParseLine, Listable, Clean, Header, WithoutUrcs;
    if lines == [] {
      FilterNone(calling);
      assert store == [];
      assert p.entries + Entries(store) == p.entries;
    } else {
      var l, next := lines[0], ParseLine(p, lines[0], calling);
      assert l in lines && forall x :: x in lines[1..] ==> x in lines;
      FilterHead(lines, calling);
      if IsUrc(l, calling) {
        ParsesOneLine(p, l, ModemMessage(0, "", ""), calling);
        ListingParses(next, lines[1..], store, calling);
      } else {
        var m := store[0];
        assert m in store;
        ParsesOneLine(p, l, m, calling);
        if p.index < 0 {
          assert WithoutUrcs(lines[1..], calling) == [m.pdu] + Listing(store[1..]);
          ListingParses(next, lines[1..], store, calling);
        } else {
          assert WithoutUrcs(lines[1..], calling) == Listing(store[1..]);
          ListingParses(next, lines[1..], store[1..], calling);
          EntriesHead(p.entries, store);
        }
      }
    }
  }

  lemma FilterNone(calling: bool)
    ensures WithoutUrcs([], calling) == []
  {
  }

  lemma {:induction false} ParseAppend(p: Parser, a: seq<string>, b: seq<string>, calling: bool)
    ensures ParseLines(p, a + b, calling) == ParseLines(ParseLines(p, a, calling), b, calling)
    decreases |a|
  {
    if a == [] {
      assert a + b == b;
    } else {
      assert (a + b)[1..] == a[1..] + b;
      ParseAppend(ParseLine(p, a[0], calling), a[1..], b, calling);
    }
  }

  lemma ListableLines(m: ModemMessage, calling: bool)
    requires Listable(m)
    ensures Clean(Header(m)) && Passes(Header(m), "AT+CMGL=4")
    ensures Clean(m.pdu) && Passes(m.pdu, "AT+CMGL=4")
  {
    hide Clean, IsUrc, HeaderIndex;
    HeaderLine(m, calling);
    HexLine(m.pdu, calling);
  }

  /** Every line of a listing is clean and cannot end the reply. */
  lemma {:induction false} ListingLines(lines: seq<string>, store: seq<ModemMessage>, pending: bool, calling: bool)
    requires forall m :: m in store ==> Listable(m)
    requires forall l :: l in lines && IsUrc(l, calling) ==> Clean(l) && Passes(l, "AT+CMGL=4")
    requires if pending then store != [] && WithoutUrcs(lines, calling) == [store[0].pdu] + Listing(store[1..])
             else WithoutUrcs(lines, calling) == Listing(store)
    ensures forall l :: l in lines ==> Clean(l) && Passes(l, "AT+CMGL=4")
    decreases |lines|
  {
    hide IsUrc, Listable, Clean, Header, WithoutUrcs, Passes;
    if lines != [] {
      var l, rest := lines[0], lines[1..];
      assert l in lines && (forall x :: x in rest ==> x in lines) && (forall x :: x in lines ==> x == l || x in rest);
      FilterHead(lines, calling);
      if IsUrc(l, calling) {
        ListingLines(rest, store, pending, calling);
      } else {
        assert store[0] in store;
        ListableLines(store[0], calling);
        if pending {
          assert WithoutUrcs(rest, calling) == Listing(store[1..]);
          ListingLines(rest, store[1..], false, calling);
        } else {
          assert WithoutUrcs(rest, calling) == [store[0].pdu] + Listing(store[1..]);
          ListingLines(rest, store, true, calling);
        }
      }
    }
  }

  /** End to end: whatever the modem holds, wherever unsolicited lines fall, however the lines are
      padded and however the bytes are split into reads, framing, collecting the reply and parsing
      it give back exactly the stored messages, in order, and nothing is left over. */
  lemma ListingRoundTrip(store: seq<ModemMessage>, body: seq<string>, pads: seq<string>, answers: seq<Read>,
                         limit: nat, why: Interrupt, calling: bool)
    requires forall m :: m in store ==> Listable(m)
    requires WithoutUrcs(body, calling) == Listing(store)
    requires forall l :: l in body && IsUrc(l, calling) ==> Clean(l) && !Contains(l, "ERROR")
    requires |pads| == |body| + 1 && forall p :: p in pads ==> Blank(p)
    requires Broken !in answers && Received(answers) == Wire(body + ["OK"], pads)
    requires limit > |body|
    ensures var rx := Consume(EMPTY, answers).out;
      var c := Collect("AT+CMGL=4", rx, limit, why, []);
      c.reply.Ok? && c.used == |rx| && ParseResponse(c.reply.text, calling) == Entries(store)
  {
    hide IsUrc, Collect, Consume, FeedAll, Wire, ParseLine;
    UrcsAreNotFinal(body, calling);
    ListingLines(body, store, false, calling);
    var lines := body + ["OK"];
    OkLine(calling);
    SplitsDoNotMatter(EMPTY, answers);
    FramingRoundTrip(EMPTY, lines, pads);
    var rx := Consume(EMPTY, answers).out;
    assert rx == AsLines(lines) + [];
    FirstFinalLineDecides("AT+CMGL=4", body, "OK", [], limit, why, []);
    assert [] + body + ["OK"] == lines;
    SplitJoin(lines, '\n');
    UrcsAreNotHeaders(body, calling);
    ListingParses(Parser(-1, []), body, store, calling);
    ParseAppend(Parser(-1, []), body, ["OK"], calling);
    OkParses(ParseLines(Parser(-1, []), body, calling), calling);
    assert [] + Entries(store) == Entries(store);
  }

  lemma OkLine(calling: bool)
    ensures Clean("OK") && !Passes("OK", "AT+CMGL=4")
  {
  }

  lemma OkParses(p: Parser, calling: bool)
    requires p.index < 0
    ensures ParseLines(p, ["OK"], calling) == p
  {
    TrimClean("OK");
    assert ["OK"][1..] == [];
  }

  lemma CmglIsNotUrc(l: string, calling: bool)
    requires Trimmed(l) && HasPrefix(l, "+CMGL:")
    ensures !IsUrc(l, calling)
  {
    TrimClean(l);
    var u := ToUpper(l);
    assert l[1] == 'C' && l[2] == 'M' && l[3] == 'G' && u[0] == '+' && u[1] == 'C' && u[2] == 'M';
    assert "+CMTI:"[3] == 'T' && "+CREG:"[2] == 'R' && "+CUSD:"[2] == 'U' && "+CLCC:"[2] == 'L' && "+QIND:"[1] == 'Q';
  }

  lemma UrcIsNotFinal(l: string, calling: bool)
    requires IsUrc(l, calling) && Clean(l) && !Contains(l, "ERROR")
    ensures Passes(l, "AT+CMGL=4") && !HasPrefix(l, "+CMGL:")
  {
    TrimClean("OK");
    assert ToUpper("OK") == "OK" && "BUSY"[1] == 'U' && "RING"[0] == 'R';
    assert "+CMTI:"[0] == '+' && "+CREG:"[0] == '+' && "+CUSD:"[0] == '+' && "+CLCC:"[0] == '+' && "+QIND:"[0] == '+';
    assert !IsUrc("OK", calling);
    if HasPrefix(l, "+CMGL:") {
      CmglIsNotUrc(l, calling);
    }
  }

  lemma UrcsAreNotFinal(body: seq<string>, calling: bool)
    requires forall l :: l in body && IsUrc(l, calling) ==> Clean(l) && !Contains(l, "ERROR")
    ensures forall l :: l in body && IsUrc(l, calling) ==> Passes(l, "AT+CMGL=4")
  {
    forall l | l in body && IsUrc(l, calling) ensures Passes(l, "AT+CMGL=4") {
      UrcIsNotFinal(l, calling);
    }
  }

  lemma UrcsAreNotHeaders(body: seq<string>, calling: bool)
    requires forall l :: l in body && IsUrc(l, calling) ==> Clean(l) && !Contains(l, "ERROR")
    ensures forall l :: l in body && IsUrc(l, calling) ==> !HasPrefix(l, "+CMGL:")
  {
    forall l | l in body && IsUrc(l, calling) ensures !HasPrefix(l, "+CMGL:") {
      UrcIsNotFinal(l, calling);
    }
  }

  // ----- Malformed listings -----

  lemma IndexField(field: string, rest: string)
    requires Trimmed(field) && ',' !in field && Trimmed(rest)
    ensures HasPrefix("+CMGL: " + field + "," + rest, "+CMGL:")
    ensures HeaderIndex("+CMGL: " + field + "," + rest)
      == if Atoi(field).Some? && Atoi(field).value >= 0 then Atoi(field).value else -1
  {
    hide Atoi, Split, TrimSpace;
    var h, body := "+CMGL: " + field + "," + rest, field + "," + rest;
    assert h[..6] == "+CMGL:" && h[6..] == " " + body;
    assert body[|body| - 1] == rest[|rest| - 1];
    TrimPadded(" ", body);
    SplitFirst(field, rest, ',');
    TrimClean(field);
  }

  /** A header whose index has a stray character or a minus sign announces no message. */
  lemma BadIndexes(field: string, i: nat, n: nat, rest: string)
    requires Trimmed(field) && ',' !in field && Trimmed(rest) && n > 0
    requires i < |field| && !IsDigit(field[i]) && (i > 0 || (field[0] != '+' && field[0] != '-'))
    ensures HeaderIndex("+CMGL: " + field + "," + rest) == -1
    ensures HeaderIndex("+CMGL: " + ("-" + Decimal(n)) + "," + rest) == -1
  {
    IndexField(field, rest);
    AtoiRefuses(field, i);
    hide Atoi, HeaderIndex;
    NegativeIndex(n, rest);
  }

  lemma NegativeIndex(n: nat, rest: string)
    requires Trimmed(rest) && n > 0
    ensures HeaderIndex("+CMGL: " + ("-" + Decimal(n)) + "," + rest) == -1
  {
    DecimalDigits(n);
    AtoiOfDigits("-", n);
    var d := Decimal(n);
    hide Decimal, Atoi, HeaderIndex;
    assert ("-" + d)[|d|] == d[|d| - 1];
    IndexField("-" + d, rest);
  }

  /** Line i is a header announcing index, and only blank and unsolicited lines follow it up to k. */
  ghost predicate Announced(lines: seq<string>, calling: bool, i: int, k: nat, index: int)
    requires k <= |lines|
  {
    && 0 <= i < k && HasPrefix(TrimSpace(lines[i]), "+CMGL:") && HeaderIndex(TrimSpace(lines[i])) == index >= 0
    && forall m :: i < m < k ==>
         !HasPrefix(TrimSpace(lines[m]), "+CMGL:") && (TrimSpace(lines[m]) == "" || IsUrc(TrimSpace(lines[m]), calling))
  }

  /** The entry was announced, and its PDU is the next line with anything in it. */
  ghost predicate Genuine(lines: seq<string>, calling: bool, e: Stored) {
    exists i, j: nat :: j < |lines| && Announced(lines, calling, i, j, e.index)
      && TrimSpace(lines[j]) == e.pdu && e.pdu != "" && IsHex(e.pdu) && !IsUrc(e.pdu, calling)
  }

  /** Whatever the reply, nothing is made up: every entry has its header, and right after it its PDU. */
  lemma {:induction false} EntriesAreGenuine(lines: seq<string>, calling: bool)
    ensures var p := ParseLines(Parser(-1, []), lines, calling);
      && (p.index >= 0 ==> exists i :: Announced(lines, calling, i, |lines|, p.index))
      && forall e :: e in p.entries ==> Genuine(lines, calling, e)
    decreases |lines|
  {
    hide IsUrc, HeaderIndex, IsHex, TrimSpace;
    if lines != [] {
      var init, l := lines[..|lines| - 1], lines[|lines| - 1];
      var q := ParseLines(Parser(-1, []), init, calling);
      var p := ParseLines(Parser(-1, []), lines, calling);
      EntriesAreGenuine(init, calling);
      assert lines == init + [l] && [l][1..] == [];
      ParseAppend(Parser(-1, []), init, [l], calling);
      assert p == ParseLine(q, l, calling);
      forall e | Genuine(init, calling, e) ensures Genuine(lines, calling, e) {
        GenuineGrows(init, lines, calling, e);
      }
      if HasPrefix(TrimSpace(l), "+CMGL:") {
        assert p.index >= 0 ==> Announced(lines, calling, |init|, |lines|, p.index);
      } else if q.index >= 0 {
        var i :| Announced(init, calling, i, |init|, q.index);
        AnnouncedGrows(init, lines, calling, i, |init|, q.index);
        if TrimSpace(l) == "" || IsUrc(TrimSpace(l), calling) {
          assert Announced(lines, calling, i, |lines|, q.index);
        } else if IsHex(TrimSpace(l)) {
          assert Genuine(lines, calling, Stored(q.index, TrimSpace(l)));
        }
      }
    }
  }

  lemma AnnouncedGrows(init: seq<string>, lines: seq<string>, calling: bool, i: int, k: nat, index: int)
    requires init <= lines && k <= |init| && Announced(init, calling, i, k, index)
    ensures Announced(lines, calling, i, k, index)
  {
    hide IsUrc, HeaderIndex, TrimSpace;
    assert forall m :: 0 <= m < k ==> lines[m] == init[m];
  }

  lemma GenuineGrows(init: seq<string>, lines: seq<string>, calling: bool, e: Stored)
    requires init <= lines && Genuine(init, calling, e)
    ensures Genuine(lines, calling, e)
  {
    hide IsUrc, HeaderIndex, TrimSpace, Announced, IsHex;
    var i, j: nat :| j < |init| && Announced(init, calling, i, j, e.index)
      && TrimSpace(init[j]) == e.pdu && e.pdu != "" && IsHex(e.pdu) && !IsUrc(e.pdu, calling);
    AnnouncedGrows(init, lines, calling, i, j, e.index);
    assert lines[j] == init[j];
  }

  /** Hexadecimal is an even number of these characters. */
  lemma HexMeans(s: string)
    ensures IsHex(s) <==> |s| % 2 == 0 && forall c :: c in s ==> c in "0123456789abcdefABCDEF"
  {
    forall c ensures IsHexDigit(c) <==> c in "0123456789abcdefABCDEF" {
      HexDigitMeans(c);
    }
  }

  lemma HexDigitMeans(c: char)
    ensures IsHexDigit(c) <==> c in "0123456789abcdefABCDEF"
  {
    var d, l, u := "0123456789", "abcdef", "ABCDEF";
    assert "0123456789abcdefABCDEF" == d + l + u;
    if '0' <= c <= '9' {
      assert d[c as int - '0' as int] == c;
    } else if 'a' <= c <= 'f' {
      assert l[c as int - 'a' as int] == c;
    } else if 'A' <= c <= 'F' {
      assert u[c as int - 'A' as int] == c;
    }
  }
}
