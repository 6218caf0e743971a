/** internal/worker/at_transaction.go: one AT command and the reply collected for it. */
module AtSession {
  import opened GoStrings
  import opened Framing

  // ----- Unsolicited lines (isURC and shouldHandleCallURC in internal/worker/worker.go) -----

  predicate IsCallUrc(line: string) {
    var upper := ToUpper(TrimSpace(line));
    || upper == "NO CARRIER" || upper == "BUSY" || upper == "NO ANSWER" || upper == "NO DIALTONE" || upper == "RING"
    || HasPrefix(upper, "+CLCC:")
    || (HasPrefix(upper, "+QIND:") && Contains(upper, "\"CCINFO\""))
  }

  /** calling is false in builds without telephony. */
  predicate IsUrc(line: string, calling: bool) {
    || HasPrefix(line, "+CMTI:") || HasPrefix(line, "+CREG:") || HasPrefix(line, "+CUSD:")
    || (calling && IsCallUrc(line))
  }

  // ----- Collecting a reply -----

  datatype Interrupt = TimerFired | StopRequested

  datatype Reply =
    | Ok(text: string)
    | Prompt(line: string)
    | ModemError(text: string)
    | Interrupted(why: Interrupt)
    | PortFailed

  /** A reply, and how many messages it took off the queue. */
  datatype Collected = Collected(reply: Reply, used: nat)

  const CTRL_Z := "\U{1A}"
  const ESC := "\U{1B}"

  predicate HasSuffix(s: string, suffix: string) {
    |suffix| <= |s| && s[|s| - |suffix|..] == suffix
  }

  /** Message bodies and the escape are sent bare, everything else ends in a carriage return. */
  function Payload(cmd: string): string {
    if HasSuffix(cmd, CTRL_Z) || HasSuffix(cmd, ESC) then cmd else cmd + "\r"
  }

  predicate IsPrompt(line: string, cmd: string) {
    HasPrefix(line, ">") && HasPrefix(cmd, "AT+CMGS=")
  }

  /** The reply to cmd when at most `limit` messages come
      before the timer fires or the worker is stopped. */
  function Collect(cmd: string, rx: seq<Message>, limit: nat, why: Interrupt, got: seq<string>): (r: Collected)
    ensures r.used <= |rx|
    decreases |rx|
  {
    if limit == 0 || rx == [] then Collected(Interrupted(why), 0)
    else match rx[0]
      case ReadError => Collected(PortFailed, 1)
      case Line(line) =>
        if IsPrompt(line, cmd) then Collected(Prompt(line), 1)
        else if line == "OK" then Collected(Ok(Join(got + [line], '\n')), 1)
        else if Contains(line, "ERROR") then Collected(ModemError(Join(got + [line], '\n')), 1)
        else
          var rest := Collect(cmd, rx[1..], limit - 1, why, got + [line]);
          rest.(used := rest.used + 1)
  }

  /** The unsolicited lines among some messages. */
  function UrcsIn(msgs: seq<Message>, calling: bool): seq<string> {
    if msgs == [] then []
    else
      var last := msgs[|msgs| - 1];
      UrcsIn(msgs[..|msgs| - 1], calling) + if last.Line? && IsUrc(last.text, calling) then [last.text] else []
  }

  lemma UrcsOneMore(rx: seq<Message>, n: nat, calling: bool)
    requires n < |rx|
    ensures UrcsIn(rx[..n + 1], calling)
      == UrcsIn(rx[..n], calling) + if rx[n].Line? && IsUrc(rx[n].text, calling) then [rx[n].text] else []
    ensures rx[n].Line? && HasPrefix(rx[n].text, ">") ==> UrcsIn(rx[..n + 1], calling) == UrcsIn(rx[..n], calling)
  {
    assert rx[..n + 1][..n] == rx[..n];
    if rx[n].Line? && HasPrefix(rx[n].text, ">") {
      PromptIsNotUrc(rx[n].text, calling);
    }
  }

  lemma NoUrcs(rx: seq<Message>, calling: bool)
    ensures UrcsIn(rx[..0], calling) == []
  {
  }

  lemma UrcsAppend(before: seq<string>, found: seq<string>, msg: Message)
    ensures msg.Line? ==> (before + found) + [msg.text] == before + (found + [msg.text])
    ensures found + [] == found && before + [] == before
  {
  }

  lemma PromptIsNotUrc(line: string, calling: bool)
    requires HasPrefix(line, ">")
    ensures !IsUrc(line, calling)
  {
    assert line[0] == line[..1][0] == '>';
    TrimRightKeepsFirst(line);
    var upper := ToUpper(TrimSpace(line));
    assert upper[0] == '>';
  }

  class Session {
    const calling: bool
    /** Messages in the order the worker receives them. */
    var rx: seq<Message>
    var writes: seq<string>
    var urcs: seq<string>
    var stopped: bool
    var reprobe: bool

    constructor (calling: bool, rx: seq<Message>)
      ensures this.calling == calling && this.rx == rx && writes == [] && urcs == [] && !stopped && !reprobe
    {
      this.calling, this.rx := calling, rx;
      writes, urcs, stopped, reprobe := [], [], false, false;
    }

    /** Retires the worker so that the manager opens the port afresh. */
    method GiveUp()
      modifies this`stopped, this`reprobe
      ensures stopped && reprobe
    {
      reprobe := true;
      stopped := true;
    }

    method Execute(cmd: string, writeOk: bool, limit: nat, why: Interrupt) returns (reply: Reply, ghost used: nat)
      modifies this
      ensures used <= |old(rx)| && rx == old(rx)[used..]
      ensures if writeOk
        then Collected(reply, used) == Collect(cmd, old(rx), limit, why, []) && writes == old(writes) + [Payload(cmd)]
        else reply == PortFailed && used == 0 && writes == old(writes)
      ensures reply == PortFailed <==> !writeOk || (used > 0 && old(rx)[used - 1] == ReadError)
      ensures urcs == old(urcs) + UrcsIn(old(rx)[..used], calling)
      ensures stopped == (old(stopped) || reply == PortFailed) && reprobe == (old(reprobe) || reply == PortFailed)
    {
      hide Contains, IsUrc, Join, UrcsIn, Payload, HasSuffix;
      used := 0;
      assert rx == rx[0..];
      NoUrcs(rx, calling);
      if !writeOk {
        GiveUp();
        return PortFailed, 0;
      }
      writes := writes + [Payload(cmd)];
      var response: seq<string> := [];
      var left: nat := limit;
      ghost var rx0 := rx;
      assert rx0[0..] == rx0;
      while left > 0 && rx != []
        invariant used <= |rx0| && rx == rx0[used..]
        invariant left + used == limit && (used > 0 ==> rx0[used - 1].Line?)
        invariant urcs == old(urcs) + UrcsIn(rx0[..used], calling)
        invariant writes == old(writes) + [Payload(cmd)] && stopped == old(stopped) && reprobe == old(reprobe)
        invariant Collect(cmd, rx0, limit, why, []).reply == Collect(cmd, rx, left, why, response).reply
        invariant Collect(cmd, rx0, limit, why, []).used == used + Collect(cmd, rx, left, why, response).used
        decreases left
      {
        var msg := rx[0];
        assert rx0[used..][1..] == rx0[used + 1..];
        UrcsOneMore(rx0, used, calling);
        UrcsAppend(old(urcs), UrcsIn(rx0[..used], calling), msg);
        rx, left, used := rx[1..], left - 1, used + 1;
        if msg.ReadError? {
          GiveUp();
          return PortFailed, used;
        }
        var line := msg.text;
        if HasPrefix(line, ">") && HasPrefix(cmd, "AT+CMGS=") {
          return Prompt(line), used;
        }
        response := response + [line];
        if IsUrc(line, calling) {
          urcs := urcs + [line];
        }
        if line == "OK" {
          return Ok(Join(response, '\n')), used;
        }
        if Contains(line, "ERROR") {
          return ModemError(Join(response, '\n')), used;
        }
      }
      reply := Interrupted(why);
    }
  }

  // ----- Which lines answer a command -----

  /** A line that does not end the reply to cmd. */
  predicate Passes(line: string, cmd: string) {
    line != "OK" && !Contains(line, "ERROR") && !IsPrompt(line, cmd)
  }

  /** A reply ends at its first final line: everything before it is passed through, everything after
      it stays queued for the next command. */
  lemma {:induction false} FirstFinalLineDecides(cmd: string, body: seq<string>, last: string, rest: seq<Message>,
                                                 limit: nat, why: Interrupt, got: seq<string>)
    requires (forall l :: l in body ==> Passes(l, cmd)) && !Passes(last, cmd) && limit > |body|
    ensures var r := Collect(cmd, AsLines(body + [last]) + rest, limit, why, got);
      && r.used == |body| + 1
      && r.reply == (if IsPrompt(last, cmd) then Prompt(last)
                   else if last == "OK" then Ok(Join(got + body + [last], '\n'))
                   else ModemError(Join(got + body + [last], '\n')))
    decreases |body|
  {
    var rx := AsLines(body + [last]) + rest;
    if body == [] {
      assert rx[0] == Line(last) && got + body == got;
    } else {
      assert rx[0] == Line(body[0]);
      assert rx[1..] == AsLines(body[1..] + [last]) + rest;
      assert Passes(body[0], cmd);
      assert got + [body[0]] + body[1..] == got + body;
      assert Collect(cmd, rx, limit, why, got).reply
        == Collect(cmd, rx[1..], limit - 1, why, got + [body[0]]).reply;
      FirstFinalLineDecides(cmd, body[1..], last, rest, limit - 1, why, got + [body[0]]);
    }
  }

  /** A wait that ends first takes what has come by then, and nothing else. */
  lemma {:induction false} CutShort(cmd: string, body: seq<string>, rest: seq<Message>, limit: nat, why: Interrupt, got: seq<string>)
    requires (forall l :: l in body ==> Passes(l, cmd)) && limit <= |body|
    ensures Collect(cmd, AsLines(body) + rest, limit, why, got) == Collected(Interrupted(why), limit)
    decreases |body|
  {
    if limit > 0 {
      var rx := AsLines(body) + rest;
      assert rx[0] == Line(body[0]) && Passes(body[0], cmd);
      assert rx[1..] == AsLines(body[1..]) + rest;
      CutShort(cmd, body[1..], rest, limit - 1, why, got + [body[0]]);
    }
  }

  /** A command takes its whole answer off the queue, and no more, exactly when the wait outlasts
      the answer; otherwise the rest of the answer is what the next command finds. */
  lemma AnswerIsOwnIffInTime(cmd: string, body: seq<string>, last: string, rest: seq<Message>,
                             limit: nat, why: Interrupt, got: seq<string>)
    requires (forall l :: l in body ==> Passes(l, cmd)) && !Passes(last, cmd)
    ensures var rx := AsLines(body + [last]) + rest;
      var c := Collect(cmd, rx, limit, why, got);
      && (c.used == |body| + 1 <==> limit > |body|)
      && (limit <= |body| ==> c == Collected(Interrupted(why), limit))
      && rx[c.used..] == if limit > |body| then rest else AsLines(body[limit..] + [last]) + rest
  {
    var rx := AsLines(body + [last]) + rest;
    if limit > |body| {
      FirstFinalLineDecides(cmd, body, last, rest, limit, why, got);
    } else {
      assert rx == AsLines(body) + ([Line(last)] + rest);
      CutShort(cmd, body, [Line(last)] + rest, limit, why, got);
    }
  }

  /** Conversely, a reply that ended in OK was read off lines none of which could have ended it
      before. */
  lemma {:induction false} OkMeansOk(cmd: string, rx: seq<Message>, limit: nat, why: Interrupt, got: seq<string>)
    returns (body: seq<string>)
    requires Collect(cmd, rx, limit, why, got).reply.Ok?
    ensures var r := Collect(cmd, rx, limit, why, got);
      && r.used == |body| + 1 <= |rx| && rx[..r.used] == AsLines(body + ["OK"])
      && (forall l :: l in body ==> Passes(l, cmd))
      && r.reply == Ok(Join(got + body + ["OK"], '\n'))
    decreases |rx|
  {
    var line := rx[0].text;
    if line == "OK" {
      body := [];
      assert got + [] == got;
    } else {
      var tail := OkMeansOk(cmd, rx[1..], limit - 1, why, got + [line]);
      body := [line] + tail;
      var n := |body| + 1;
      assert rx[..n] == [rx[0]] + rx[1..][..n - 1];
      assert body + ["OK"] == [line] + (tail + ["OK"]);
      assert got + [line] + tail == got + body;
    }
  }

  /** Any two commands in a row, the answer to the first coming in full: if the first wait ends
      before it, and only then, the second command takes what is left of it for its own answer. */
  lemma LateReplyIsMisread(first: string, second: string, body: seq<string>, last: string, rest: seq<Message>,
                           limit: nat, why: Interrupt, patience: nat, why': Interrupt)
    requires forall l :: l in body ==> Passes(l, first) && Passes(l, second)
    requires !Passes(last, first) && !Passes(last, second) && patience > |body|
    ensures var rx := AsLines(body + [last]) + rest;
      var left := rx[Collect(first, rx, limit, why, []).used..];
      var next := Collect(second, left, patience, why', []);
      if limit > |body| then left == rest
      else
        var late := body[limit..] + [last];
        && next.used == |late| && left[..next.used] == AsLines(late)
        && next.reply == (if IsPrompt(last, second) then Prompt(last)
                          else if last == "OK" then Ok(Join(late, '\n')) else ModemError(Join(late, '\n')))
  {
    AnswerIsOwnIffInTime(first, body, last, rest, limit, why, []);
    if limit <= |body| {
      var tail := body[limit..];
      assert forall l :: l in tail ==> l in body;
      FirstFinalLineDecides(second, tail, last, rest, patience, why', []);
      assert [] + tail + [last] == tail + [last];
    }
  }

  // ----- Many commands in a row -----

  /** A command, the answer the modem gives it, and how long the session waits for it. */
  datatype Asked = Asked(cmd: string, body: seq<string>, last: string, limit: nat, why: Interrupt)

  ghost predicate Answered(a: Asked) {
    (forall l :: l in a.body ==> Passes(l, a.cmd)) && !Passes(a.last, a.cmd)
  }

  /** What the modem sends, all answers in order. */
  function Answers(asked: seq<Asked>): seq<Message> {
    if asked == [] then [] else AsLines(asked[0].body + [asked[0].last]) + Answers(asked[1..])
  }

  /** What the session makes of it, command by command. */
  function Dialogue(asked: seq<Asked>, rx: seq<Message>): seq<Collected>
    decreases |asked|
  {
    if asked == [] then []
    else
      var c := Collect(asked[0].cmd, rx, asked[0].limit, asked[0].why, []);
      [c] + Dialogue(asked[1..], rx[c.used..])
  }

  /** The reply made of exactly the answer to the command. */
  function OwnReply(a: Asked): Collected {
    var text := Join(a.body + [a.last], '\n');
    Collected(if IsPrompt(a.last, a.cmd) then Prompt(a.last) else if a.last == "OK" then Ok(text) else ModemError(text),
              |a.body| + 1)
  }

  function OwnReplies(asked: seq<Asked>): seq<Collected> {
    if asked == [] then [] else [OwnReply(asked[0])] + OwnReplies(asked[1..])
  }

  /** Over any sequence of commands answered in order, every command gets its own answer exactly when
      no wait ends too soon. */
  lemma {:induction false} AllAnswersOwnIffInTime(asked: seq<Asked>, rest: seq<Message>)
    requires forall a :: a in asked ==> Answered(a)
    ensures Dialogue(asked, Answers(asked) + rest) == OwnReplies(asked) <==> forall a :: a in asked ==> a.limit > |a.body|
    decreases |asked|
  {
    if asked != [] {
      var a, later := asked[0], Answers(asked[1..]) + rest;
      var mine := AsLines(a.body + [a.last]);
      assert Answers(asked) + rest == mine + later;
      var c := Collect(a.cmd, mine + later, a.limit, a.why, []);
      FirstAnswer(a, later);
      assert forall x :: x in asked <==> x == a || x in asked[1..];
      assert Dialogue(asked, mine + later)[0] == c && OwnReplies(asked)[0] == OwnReply(a);
      assert Dialogue(asked, mine + later)[1..] == Dialogue(asked[1..], (mine + later)[c.used..]);
      assert OwnReplies(asked)[1..] == OwnReplies(asked[1..]);
      if c == OwnReply(a) {
        AllAnswersOwnIffInTime(asked[1..], rest);
      }
    }
  }

  lemma FirstAnswer(a: Asked, later: seq<Message>)
    requires Answered(a)
    ensures var rx := AsLines(a.body + [a.last]) + later;
      var c := Collect(a.cmd, rx, a.limit, a.why, []);
      && (c == OwnReply(a) <==> a.limit > |a.body|) && (c == OwnReply(a) ==> rx[c.used..] == later)
  {
    AnswerIsOwnIffInTime(a.cmd, a.body, a.last, later, a.limit, a.why, []);
    if a.limit > |a.body| {
      FirstFinalLineDecides(a.cmd, a.body, a.last, later, a.limit, a.why, []);
      assert [] + a.body + [a.last] == a.body + [a.last];
    }
  }

  // ----- Ports that die, prompts and unsolicited lines -----

  /** A reply is a port failure exactly when the message that ended the wait was a read error. */
  lemma {:induction false} PortFailedIff(cmd: string, rx: seq<Message>, limit: nat, why: Interrupt, got: seq<string>)
    ensures var c := Collect(cmd, rx, limit, why, got);
      && (c.reply == PortFailed <==> c.used > 0 && rx[c.used - 1] == ReadError)
      && (forall i :: 0 <= i < c.used - 1 ==> rx[i] != ReadError)
    decreases |rx|
  {
    if limit > 0 && rx != [] && rx[0].Line? {
      PortFailedIff(cmd, rx[1..], limit - 1, why, got + [rx[0].text]);
    }
  }

  /** A wait is interrupted exactly when nothing that came in time could end it, and then has taken
      all of that. */
  lemma {:induction false} InterruptedIff(cmd: string, rx: seq<Message>, limit: nat, why: Interrupt, got: seq<string>)
    ensures var c := Collect(cmd, rx, limit, why, got);
      var n := if limit < |rx| then limit else |rx|;
      && (c.reply.Interrupted? <==> forall i :: 0 <= i < n ==> rx[i].Line? && Passes(rx[i].text, cmd))
      && (c.reply.Interrupted? ==> c == Collected(Interrupted(why), n))
    decreases |rx|
  {
    if limit > 0 && rx != [] && rx[0].Line? && Passes(rx[0].text, cmd) {
      InterruptedIff(cmd, rx[1..], limit - 1, why, got + [rx[0].text]);
    }
  }

  /** A line starting with a prompt character ends the wait for AT+CMGS= and no other. */
  lemma PromptsAreForSends(line: string, cmd: string)
    requires line != "" && line[0] == '>' && !Contains(line, "ERROR")
    ensures Passes(line, cmd) <==> |cmd| < 8 || cmd[..8] != "AT+CMGS="
  {
    assert line[..1] == ">";
  }

  /** Message bodies and the escape go out as they are. */
  lemma BarePayloads(body: string)
    ensures Payload(body + "\U{1A}") == body + "\U{1A}" && Payload("\U{1B}") == "\U{1B}"
  {
  }

  /** The lines taken for unsolicited: three kinds always, those about calls only with telephony. */
  lemma UrcKinds(rest: string, calling: bool)
    ensures IsUrc("+CMTI:" + rest, calling) && IsUrc("+CREG:" + rest, calling) && IsUrc("+CUSD:" + rest, calling)
    ensures IsUrc("+CLCC:" + rest, calling) <==> calling
    ensures IsUrc("+QIND: \"ccinfo\"" + rest, calling) <==> calling
    ensures !IsUrc("OK", calling)
  {
    var l := "+CLCC:" + rest;
    TrimRightKeepsPrefix(l, "+CLCC:");
    assert l[0] == '+' && TrimSpace(l) == TrimRight(l);
    UpperKeepsPrefix(TrimSpace(l), "+CLCC:");
    assert l[2] == 'L' && l[1] == 'C';
    CallLine("OK");
    CallInfo(rest);
  }

  lemma CallInfo(rest: string)
    ensures var l := "+QIND: \"ccinfo\"" + rest;
      && HasPrefix(ToUpper(TrimSpace(l)), "+QIND:") && Contains(ToUpper(TrimSpace(l)), "\"CCINFO\"")
      && !HasPrefix(l, "+CMTI:") && !HasPrefix(l, "+CREG:") && !HasPrefix(l, "+CUSD:")
  {
    var head := "+QIND: \"ccinfo\"";
    var l := head + rest;
    assert l[..|head|] == head;
    TrimRightKeepsPrefix(l, head);
    assert l[0] == '+' && l[1] == 'Q' && TrimSpace(l) == TrimRight(l);
    var t := TrimSpace(l);
    UpperTakes(t, |head|);
    var u := ToUpper(t);
    hide TrimSpace, TrimRight;
    var big := "+QIND: \"CCINFO\"";
    assert u[..|head|] == ToUpper(head) == big;
    hide ToUpper;
    assert "+QIND:" == big[..6] <= u;
    assert "\"CCINFO\"" == big[7..15] == u[7..15] == u[7..][..8];
    assert "\"CCINFO\"" <= u[7..];
  }

  lemma CallUrcs(calling: bool)
    ensures IsUrc("RING", calling) <==> calling
    ensures IsUrc("BUSY", calling) <==> calling
    ensures IsUrc("NO CARRIER", calling) <==> calling
    ensures IsUrc("NO ANSWER", calling) <==> calling
    ensures IsUrc("NO DIALTONE", calling) <==> calling
  {
    CallLine("RING");
    CallLine("BUSY");
    CallLine("NO CARRIER");
    CallLine("NO ANSWER");
    CallLine("NO DIALTONE");
    hide TrimSpace, ToUpper, HasPrefix, Contains;
  }

  lemma CallLine(l: string)
    requires Trimmed(l) && (forall c :: c in l ==> UpperChar(c) == c) && l[0] != '+'
    ensures TrimSpace(l) == l && ToUpper(l) == l
    ensures !HasPrefix(l, "+CMTI:") && !HasPrefix(l, "+CREG:") && !HasPrefix(l, "+CUSD:")
    ensures !HasPrefix(l, "+CLCC:") && !HasPrefix(l, "+QIND:")
  {
    TrimPadded("", l);
    assert "" + l == l && ToUpper(l) == l;
  }
}
