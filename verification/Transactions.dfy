/** runATTransaction and executeTransaction in internal/worker: many callers, one serial port. A
    caller queues a transaction; the worker loop runs one to its end before it takes the next. */
module Transactions {
  import opened Basics
  import opened GoStrings
  import opened AtSession
  import opened Framing

  // ----- Sending a message (SendSMS in internal/worker/worker.go) -----

  /** One TPDU: its length without the service centre, and its digits with it. */
  datatype Segment = Segment(length: nat, pdu: string)

  datatype Phase = SetService | SetPduMode | Announce(k: nat) | Submit(k: nat) | Abort | Over(ok: bool)

  /** The error result of execute. */
  predicate IsError(reply: Reply) {
    !reply.Ok? && !reply.Prompt?
  }

  /** The string result of execute. */
  function Text(reply: Reply): string {
    match reply
    case Ok(text) => text
    case Prompt(line) => line
    case _ => ""
  }

  function NextSegment(segments: seq<Segment>, k: nat): Phase {
    if k < |segments| then Announce(k) else Over(true)
  }

  function Advance(segments: seq<Segment>, phase: Phase, reply: Reply): Phase {
    match phase
    case SetService => SetPduMode // a module that refuses AT+CSMS=1 is tolerated
    case SetPduMode => if IsError(reply) then Over(false) else NextSegment(segments, 0)
    case Announce(k) => if IsError(reply) || !Contains(Text(reply), ">") then Over(false) else Submit(k)
    case Submit(k) =>
      if IsError(reply) then Abort
      else if Contains(Text(reply), "+CMGS:") then NextSegment(segments, k + 1) else Over(false)
    case Abort => Over(false)
    case Over(_) => phase
  }

  function PhaseAfter(segments: seq<Segment>, replies: seq<Reply>): Phase {
    if replies == [] then SetService
    else Advance(segments, PhaseAfter(segments, replies[..|replies| - 1]), replies[|replies| - 1])
  }

  function AnnounceCommand(s: Segment): string {
    "AT+CMGS=" + Decimal(s.length)
  }

  function CommandFor(segments: seq<Segment>, phase: Phase): string {
    match phase
    case SetService => "AT+CSMS=1"
    case SetPduMode => "AT+CMGF=0"
    case Announce(k) => if k < |segments| then AnnounceCommand(segments[k]) else ""
    case Submit(k) => if k < |segments| then segments[k].pdu + CTRL_Z else ""
    case Abort => ESC
    case Over(_) => ""
  }

  /** How one command of a body turns out: whether the port takes it, and when the wait ends. */
  datatype Turn = Turn(writeOk: bool, limit: nat, why: Interrupt)

  /** The bytes put on the wire for the commands answered by replies. */
  function Written(segments: seq<Segment>, replies: seq<Reply>, turns: seq<Turn>): seq<string>
    requires |replies| <= |turns|
  {
    if replies == [] then []
    else
      var n := |replies| - 1;
      Written(segments, replies[..n], turns)
      + if turns[n].writeOk then [Payload(CommandFor(segments, PhaseAfter(segments, replies[..n])))] else []
  }

  /** The replies to the first n commands, and the messages still queued after them, when the body
      starts with rx queued. */
  datatype Talk = Talk(replies: seq<Reply>, rx: seq<Message>)

  function Heard(segments: seq<Segment>, turns: seq<Turn>, rx: seq<Message>, n: nat): Talk
    requires n <= |turns|
  {
    if n == 0 then Talk([], rx)
    else
      var t, turn := Heard(segments, turns, rx, n - 1), turns[n - 1];
      if turn.writeOk then
        var c := Collect(CommandFor(segments, PhaseAfter(segments, t.replies)), t.rx, turn.limit, turn.why, []);
        Talk(t.replies + [c.reply], t.rx[c.used..])
      else Talk(t.replies + [PortFailed], t.rx)
  }

  /** The exchange so far follows the phases, none of the earlier ones the last. */
  ghost predicate OnTrack(segments: seq<Segment>, replies: seq<Reply>, turns: seq<Turn>, written: seq<string>) {
    && |replies| <= |turns| && written == Written(segments, replies, turns)
    && forall n :: 0 <= n < |replies| ==> !PhaseAfter(segments, replies[..n]).Over?
  }

  lemma OneMore(segments: seq<Segment>, replies: seq<Reply>, turns: seq<Turn>, written: seq<string>, reply: Reply)
    requires OnTrack(segments, replies, turns, written) && |replies| < |turns|
    requires !PhaseAfter(segments, replies).Over?
    ensures var phase := PhaseAfter(segments, replies);
      && PhaseAfter(segments, replies + [reply]) == Advance(segments, phase, reply)
      && OnTrack(segments, replies + [reply], turns,
                 written + if turns[|replies|].writeOk then [Payload(CommandFor(segments, phase))] else [])
  {
    var more := replies + [reply];
    assert more[..|more| - 1] == replies;
    forall n | 0 <= n < |more| ensures !PhaseAfter(segments, more[..n]).Over? {
      assert n < |replies| ==> more[..n] == replies[..n];
    }
  }

  /** One command of the body and its reply. */
  method Exchange(s: Session, segments: seq<Segment>, ghost replies: seq<Reply>, turns: seq<Turn>, cmd: string,
                  turn: Turn, ghost before: seq<string>, ghost written: seq<string>, ghost rx: seq<Message>)
    returns (reply: Reply, ghost replies': seq<Reply>, ghost written': seq<string>)
    requires OnTrack(segments, replies, turns, written) && s.writes == before + written
    requires |replies| < |turns| && turn == turns[|replies|]
    requires Talk(replies, s.rx) == Heard(segments, turns, rx, |replies|)
    requires !PhaseAfter(segments, replies).Over? && cmd == CommandFor(segments, PhaseAfter(segments, replies))
    modifies s
    ensures replies' == replies + [reply]
    ensures PhaseAfter(segments, replies') == Advance(segments, PhaseAfter(segments, replies), reply)
    ensures OnTrack(segments, replies', turns, written') && s.writes == before + written'
    ensures Talk(replies', s.rx) == Heard(segments, turns, rx, |replies'|)
  {
    hide OnTrack, PhaseAfter, Written, Collect;
    ghost var used;
    reply, used := s.Execute(cmd, turn.writeOk, turn.limit, turn.why);
    replies' := replies + [reply];
    written' := written + if turn.writeOk then [Payload(cmd)] else [];
    OneMore(segments, replies, turns, written, reply);
  }

  /** The body of a send transaction, on a session of its own. */
  method SendSegments(s: Session, segments: seq<Segment>, turns: seq<Turn>)
    returns (ok: bool, ghost replies: seq<Reply>, ghost written: seq<string>)
    requires |turns| >= 2 * |segments| + 3
    modifies s
    ensures PhaseAfter(segments, replies) == Over(ok)
    ensures OnTrack(segments, replies, turns, written) && s.writes == old(s.writes) + written
    ensures Talk(replies, s.rx) == Heard(segments, turns, old(s.rx), |replies|)
  {
    hide OnTrack, PhaseAfter, Decimal, Contains, Heard;
    replies, written := [], [];
    StartsOnTrack(segments, turns);
    ghost var before, rx := s.writes, s.rx;
    assert before + [] == before;
    var reply;
    reply, replies, written := Exchange(s, segments, replies, turns, "AT+CSMS=1", turns[0], before, written, rx);
    reply, replies, written := Exchange(s, segments, replies, turns, "AT+CMGF=0", turns[1], before, written, rx);
    if IsError(reply) {
      return false, replies, written;
    }
    for k := 0 to |segments|
      invariant |replies| == 2 * k + 2 && PhaseAfter(segments, replies) == NextSegment(segments, k)
      invariant OnTrack(segments, replies, turns, written) && s.writes == before + written
      invariant Talk(replies, s.rx) == Heard(segments, turns, rx, |replies|)
    {
      reply, replies, written := Exchange(s, segments, replies, turns, AnnounceCommand(segments[k]),
                                          turns[2 * k + 2], before, written, rx);
      if IsError(reply) || !Contains(Text(reply), ">") {
        return false, replies, written;
      }
      reply, replies, written := Exchange(s, segments, replies, turns, segments[k].pdu + CTRL_Z,
                                          turns[2 * k + 3], before, written, rx);
      if IsError(reply) {
        reply, replies, written := Exchange(s, segments, replies, turns, ESC, turns[2 * k + 4], before, written, rx);
        return false, replies, written;
      }
      if !Contains(Text(reply), "+CMGS:") {
        return false, replies, written;
      }
    }
    ok := true;
  }

  lemma StartsOnTrack(segments: seq<Segment>, turns: seq<Turn>)
    ensures OnTrack(segments, [], turns, []) && PhaseAfter(segments, []) == SetService
    ensures forall rx :: Heard(segments, turns, rx, 0) == Talk([], rx)
  {
  }

  /** The modem asked for segment k and then gave it a message reference. */
  predicate Acknowledged(replies: seq<Reply>, k: nat)
    requires 2 * k + 3 < |replies|
  {
    && !IsError(replies[2 * k + 2]) && Contains(Text(replies[2 * k + 2]), ">")
    && !IsError(replies[2 * k + 3]) && Contains(Text(replies[2 * k + 3]), "+CMGS:")
  }

  ghost predicate AcknowledgedUpTo(replies: seq<Reply>, k: nat) {
    2 * k + 2 <= |replies| && !IsError(replies[1]) && forall j: nat :: j < k ==> Acknowledged(replies, j)
  }

  lemma EarlierNotOver(segments: seq<Segment>, replies: seq<Reply>)
    requires replies != [] && forall n :: 0 <= n < |replies| ==> !PhaseAfter(segments, replies[..n]).Over?
    ensures var init := replies[..|replies| - 1];
      !PhaseAfter(segments, init).Over? && forall n :: 0 <= n < |init| ==> !PhaseAfter(segments, init[..n]).Over?
  {
    hide PhaseAfter;
    var init := replies[..|replies| - 1];
    forall n | 0 <= n < |init| ensures !PhaseAfter(segments, init[..n]).Over? {
      assert init[..n] == replies[..n];
    }
  }

  lemma {:induction false} AcknowledgedSoFar(segments: seq<Segment>, replies: seq<Reply>)
    requires forall n :: 0 <= n < |replies| ==> !PhaseAfter(segments, replies[..n]).Over?
    ensures match PhaseAfter(segments, replies)
      case SetService => |replies| == 0
      case SetPduMode => |replies| == 1
      case Announce(k) => k < |segments| && |replies| == 2 * k + 2 && AcknowledgedUpTo(replies, k)
      case Submit(k) =>
        && k < |segments| && |replies| == 2 * k + 3 && AcknowledgedUpTo(replies, k)
        && !IsError(replies[2 * k + 2]) && Contains(Text(replies[2 * k + 2]), ">")
      case Over(ok) => ok ==> |replies| == 2 * |segments| + 2 && AcknowledgedUpTo(replies, |segments|)
      case Abort => true
    decreases |replies|
  {
    hide Contains, AcknowledgedUpTo, IsError, Text;
    if replies != [] {
      var init := replies[..|replies| - 1];
      EarlierNotOver(segments, replies);
      AcknowledgedSoFar(segments, init);
      var phase := PhaseAfter(segments, init);
      if phase.Announce? || phase.Submit? {
        AcknowledgedExtends(init, replies, phase.k);
      } else {
        NoneYet(replies);
      }
    }
  }

  lemma NoneYet(replies: seq<Reply>)
    ensures |replies| >= 2 && !IsError(replies[1]) ==> AcknowledgedUpTo(replies, 0)
  {
  }

  lemma AcknowledgedExtends(init: seq<Reply>, replies: seq<Reply>, k: nat)
    requires AcknowledgedUpTo(init, k) && init <= replies
    ensures AcknowledgedUpTo(replies, k)
    ensures 2 * k + 3 < |replies| && Acknowledged(replies, k) ==> AcknowledgedUpTo(replies, k + 1)
  {
    hide IsError, Contains, Text;
    forall j: nat | j < k ensures Acknowledged(replies, j) {
      assert Acknowledged(init, j);
    }
  }

  lemma PhaseStep(segments: seq<Segment>, replies: seq<Reply>, n: nat)
    requires n < |replies|
    ensures PhaseAfter(segments, replies[..n + 1]) == Advance(segments, PhaseAfter(segments, replies[..n]), replies[n])
    ensures PhaseAfter(segments, replies[..0]) == SetService
  {
    assert replies[..n + 1][..n] == replies[..n];
  }

  lemma {:induction false} AcknowledgedGoOn(segments: seq<Segment>, replies: seq<Reply>, k: nat)
    requires k <= |segments| && AcknowledgedUpTo(replies, k)
    ensures PhaseAfter(segments, replies[..2 * k + 2]) == NextSegment(segments, k)
    decreases k
  {
    hide Contains, PhaseAfter, IsError, Text;
    if k == 0 {
      PhaseStep(segments, replies, 0);
      PhaseStep(segments, replies, 1);
    } else {
      assert forall j: nat :: j < k ==> Acknowledged(replies, j);
      AcknowledgedGoOn(segments, replies, k - 1);
      assert Acknowledged(replies, k - 1);
      PhaseStep(segments, replies, 2 * k);
      PhaseStep(segments, replies, 2 * k + 1);
    }
  }

  /** A send succeeds exactly when the modem took PDU mode, asked for every segment and answered
      each one with a reference. */
  lemma SentMeansAcknowledged(segments: seq<Segment>, replies: seq<Reply>)
    requires forall n :: 0 <= n < |replies| ==> !PhaseAfter(segments, replies[..n]).Over?
    ensures PhaseAfter(segments, replies) == Over(true)
      <==> |replies| == 2 * |segments| + 2 && AcknowledgedUpTo(replies, |segments|)
  {
    hide AcknowledgedUpTo, PhaseAfter;
    AcknowledgedSoFar(segments, replies);
    if |replies| == 2 * |segments| + 2 && AcknowledgedUpTo(replies, |segments|) {
      AcknowledgedGoOn(segments, replies, |segments|);
      assert replies[..|replies|] == replies;
    }
  }

  // ----- What a send puts on the wire -----

  function PerSegment(segments: seq<Segment>): seq<string> {
    if segments == [] then []
    else
      var s := segments[|segments| - 1];
      PerSegment(segments[..|segments| - 1]) + ["AT+CMGS=" + Decimal(s.length) + "\r", s.pdu + "\U{1A}"]
  }

  /** Everything written when nothing goes wrong. */
  function Script(segments: seq<Segment>): seq<string> {
    ["AT+CSMS=1\r", "AT+CMGF=0\r"] + PerSegment(segments)
  }

  /** The number announced is the length of the segment, in decimal digits. */
  lemma AnnouncesLength(s: Segment)
    ensures var cmd := AnnounceCommand(s);
      && cmd[..8] == "AT+CMGS=" && AllDigits(cmd[8..]) && cmd[8..] != "" && DecimalValue(cmd[8..]) == s.length
      && Payload(cmd) == cmd + "\r"
  {
    DecimalDigits(s.length);
    var d := Decimal(s.length);
    hide Decimal;
    var cmd := AnnounceCommand(s);
    assert cmd[8..] == d && cmd[|cmd| - 1] == d[|d| - 1];
  }

  lemma {:induction false} PerSegmentAt(segments: seq<Segment>, k: nat)
    requires k < |segments|
    ensures |PerSegment(segments)| == 2 * |segments|
    ensures PerSegment(segments)[2 * k] == "AT+CMGS=" + Decimal(segments[k].length) + "\r"
    ensures PerSegment(segments)[2 * k + 1] == segments[k].pdu + "\U{1A}"
    decreases |segments|
  {
    hide Decimal;
    var init := segments[..|segments| - 1];
    if init != [] {
      PerSegmentAt(init, if k < |init| then k else 0);
    }
  }

  /** The n-th command of a send is the n-th of the script, or the escape after a failed submission. */
  lemma NthCommand(segments: seq<Segment>, replies: seq<Reply>)
    requires forall n :: 0 <= n < |replies| ==> !PhaseAfter(segments, replies[..n]).Over?
    requires !PhaseAfter(segments, replies).Over?
    ensures var phase, n := PhaseAfter(segments, replies), |replies|;
      var payload := Payload(CommandFor(segments, phase));
      if phase.Abort? then n > 0 && IsError(replies[n - 1]) && payload == "\U{1B}"
      else n < |Script(segments)| && payload == Script(segments)[n]
  {
    AcknowledgedSoFar(segments, replies);
    hide PhaseAfter, AcknowledgedUpTo, IsError, Contains, Text, Decimal, PerSegment;
    var phase := PhaseAfter(segments, replies);
    match phase
    case Announce(k) => SegmentCommands(segments, k);
    case Submit(k) => SegmentCommands(segments, k);
    case Abort => AbortAfterError(segments, replies);
    case _ => NoSegmentCommands(segments);
  }

  lemma SegmentCommands(segments: seq<Segment>, k: nat)
    requires k < |segments|
    ensures |Script(segments)| == 2 * |segments| + 2
    ensures Payload(CommandFor(segments, Announce(k))) == Script(segments)[2 * k + 2]
    ensures Payload(CommandFor(segments, Submit(k))) == Script(segments)[2 * k + 3]
  {
    PerSegmentAt(segments, k);
    AnnouncesLength(segments[k]);
    BarePayloads(segments[k].pdu);
    hide Payload, PerSegment, Decimal;
  }

  lemma NoSegmentCommands(segments: seq<Segment>)
    ensures Payload(CommandFor(segments, SetService)) == Script(segments)[0]
    ensures Payload(CommandFor(segments, SetPduMode)) == Script(segments)[1]
  {
  }

  lemma AbortAfterError(segments: seq<Segment>, replies: seq<Reply>)
    requires PhaseAfter(segments, replies).Abort?
    ensures replies != [] && IsError(replies[|replies| - 1])
  {
  }

  /** With every write taken by the port, a send puts its script on the wire up to where it stops; only
      an escape after a failed submission can stand in the place of the next announcement. */
  lemma {:induction false} WireFollowsScript(segments: seq<Segment>, replies: seq<Reply>, turns: seq<Turn>)
    requires |replies| <= |turns| && forall n :: 0 <= n < |replies| ==> turns[n].writeOk
    requires forall n :: 0 <= n < |replies| ==> !PhaseAfter(segments, replies[..n]).Over?
    ensures var w := Written(segments, replies, turns);
      && |w| == |replies|
      && forall n :: 0 <= n < |w| ==>
           if PhaseAfter(segments, replies[..n]).Abort? then n > 0 && IsError(replies[n - 1]) && w[n] == "\U{1B}"
           else n < |Script(segments)| && w[n] == Script(segments)[n]
    decreases |replies|
  {
    hide PhaseAfter, CommandFor, Script, Payload, IsError;
    if replies != [] {
      var m := |replies| - 1;
      var init := replies[..m];
      forall n | 0 <= n < m ensures init[..n] == replies[..n] {
      }
      WireFollowsScript(segments, init, turns);
      NthCommand(segments, init);
    }
  }

  /** A send that succeeds has written its whole script and nothing else. */
  lemma SuccessWritesScript(segments: seq<Segment>, replies: seq<Reply>, turns: seq<Turn>)
    requires |replies| <= |turns| && forall n :: 0 <= n < |replies| ==> turns[n].writeOk
    requires forall n :: 0 <= n < |replies| ==> !PhaseAfter(segments, replies[..n]).Over?
    requires PhaseAfter(segments, replies) == Over(true)
    ensures Written(segments, replies, turns) == Script(segments)
  {
    WireFollowsScript(segments, replies, turns);
    SentMeansAcknowledged(segments, replies);
    if segments != [] {
      PerSegmentAt(segments, 0);
    }
    forall n | 0 <= n < |replies| ensures !PhaseAfter(segments, replies[..n]).Abort? {
      if PhaseAfter(segments, replies[..n]).Abort? {
        AbortEnds(segments, replies, n);
      }
    }
    hide PhaseAfter, Written, Acknowledged, IsError;
    assert |Script(segments)| == 2 * |segments| + 2;
  }

  lemma AbortEnds(segments: seq<Segment>, replies: seq<Reply>, n: nat)
    requires n < |replies| && PhaseAfter(segments, replies[..n]).Abort?
    requires forall k :: 0 <= k < |replies| ==> !PhaseAfter(segments, replies[..k]).Over?
    ensures PhaseAfter(segments, replies) == Over(false)
  {
    PhaseStep(segments, replies, n);
    assert n + 1 == |replies| ==> replies[..n + 1] == replies;
  }

  // ----- Which commands may run on their own -----

  /** executeAT refuses commands that leave the modem waiting for input. */
  predicate RequiresInteractiveTransaction(cmd: string) {
    var trimmed := ToUpper(TrimSpace(cmd));
    || HasPrefix(trimmed, "AT+CMGS=") || HasPrefix(trimmed, "AT+CMGW=")
    || HasSuffix(cmd, CTRL_Z) || HasSuffix(cmd, ESC)
  }

  /** Refused are exactly the commands that, after white space and in any case, start like a send or
      a store, and those that end in Ctrl-Z or the escape. */
  lemma InteractiveIff(cmd: string)
    ensures RequiresInteractiveTransaction(cmd) <==>
      || Spelled(cmd, "AT+CMGS=") || Spelled(cmd, "AT+CMGW=")
      || (cmd != "" && (cmd[|cmd| - 1] == '\U{1A}' || cmd[|cmd| - 1] == '\U{1B}'))
  {
    SpelledIff(cmd, "AT+CMGS=");
    SpelledIff(cmd, "AT+CMGW=");
    LastChar(cmd, '\U{1A}');
    LastChar(cmd, '\U{1B}');
    hide TrimSpace, ToUpper, Spelled, HasPrefix, HasSuffix;
  }

  lemma LastChar(cmd: string, c: char)
    ensures HasSuffix(cmd, [c]) <==> cmd != "" && cmd[|cmd| - 1] == c
  {
  }

  /** What executeAT lets through opens no prompt and ends with a carriage return. */
  lemma PlainCommandsDoNotPrompt(cmd: string)
    requires !RequiresInteractiveTransaction(cmd)
    ensures !HasPrefix(cmd, "AT+CMGS=") && Payload(cmd) == cmd + "\r"
  {
    InteractiveIff(cmd);
    if HasPrefix(cmd, "AT+CMGS=") {
      PrefixIsSpelled(cmd, "AT+CMGS=");
    }
  }

  // ----- The queue, the loop and the callers -----

  /** What a transaction's body does next, given the replies so far. */
  datatype Next = Command(cmd: string) | Done(ok: bool)

  /** A message to send, or any body made of commands that open no prompt. */
  datatype Body = SendBody(segments: seq<Segment>) | PlainBody(next: seq<Reply> -> Next)

  function NextOf(body: Body, replies: seq<Reply>): Next {
    match body
    case PlainBody(next) => next(replies)
    case SendBody(segments) =>
      var phase := PhaseAfter(segments, replies);
      if phase.Over? then Done(phase.ok) else Command(CommandFor(segments, phase))
  }

  /** Segments are hexadecimal digits after an empty service centre; no other body asks for a
      prompt. */
  ghost predicate Proper(body: Body) {
    match body
    case SendBody(segments) => forall k :: 0 <= k < |segments| ==> HasPrefix(segments[k].pdu, "00")
    case PlainBody(next) => forall replies :: next(replies).Command? ==> !HasPrefix(next(replies).cmd, "AT+CMGS=")
  }

  datatype Tx = Tx(id: nat, body: Body)
  datatype Running = Running(tx: Tx, replies: seq<Reply>)
  datatype Entry = Entry(id: nat, cmd: string, reply: Reply)
  datatype Told = Result(ok: bool) | WorkerStopped

  const QUEUE_SIZE := 10

  /** finished holds the transactions run so far with all their replies, log every command handed to
      the port with its reply, told what each accepted caller got. */
  datatype State = State(queue: seq<Tx>, current: Option<Running>, log: seq<Entry>, finished: seq<Running>,
                         accepted: seq<Tx>, told: map<nat, Told>, stopped: bool)

  datatype Event =
    | Accept(tx: Tx)         // a caller's transaction enters the channel
    | Take                   // the loop takes the oldest one
    | Say(reply: Reply)      // the running body issues its next command
    | Finish                 // the running body is done
    | Stop
    | HearResult(id: nat)    // a caller receives from its done channel
    | HearStop(id: nat)      // a caller sees the stop channel first

  const START := State([], None, [], [], [], map[], false)

  predicate Complete(r: Running) {
    NextOf(r.tx.body, r.replies).Done?
  }

  ghost predicate Enabled(s: State, e: Event) {
    match e
    case Accept(tx) => |s.queue| < QUEUE_SIZE && (forall t :: t in s.accepted ==> t.id != tx.id) && Proper(tx.body)
    case Take => s.current.None? && s.queue != []
    case Say(_) => s.current.Some? && !Complete(s.current.value)
    case Finish => s.current.Some? && Complete(s.current.value)
    case Stop => true
    case HearResult(id) => id !in s.told && exists r :: r in s.finished && r.tx.id == id
    case HearStop(id) => id !in s.told && s.stopped && exists t :: t in s.accepted && t.id == id
  }

  /** What lies in the done channel of transaction id. */
  function OutcomeOf(finished: seq<Running>, id: nat): Told
    decreases |finished|
  {
    if finished == [] then WorkerStopped
    else if finished[0].tx.id == id && Complete(finished[0]) then Result(NextOf(finished[0].tx.body, finished[0].replies).ok)
    else OutcomeOf(finished[1..], id)
  }

  function Step(s: State, e: Event): State
    requires e.Take? ==> s.queue != []
    requires e.Say? ==> s.current.Some? && !Complete(s.current.value)
    requires e.Finish? ==> s.current.Some?
  {
    match e
    case Accept(tx) => s.(queue := s.queue + [tx], accepted := s.accepted + [tx])
    case Take => s.(queue := s.queue[1..], current := Some(Running(s.queue[0], [])))
    case Say(reply) =>
      var r := s.current.value;
      s.(log := s.log + [Entry(r.tx.id, NextOf(r.tx.body, r.replies).cmd, reply)],
         current := Some(r.(replies := r.replies + [reply])))
    case Finish => s.(current := None, finished := s.finished + [s.current.value])
    case Stop => s.(stopped := true)
    case HearResult(id) => s.(told := s.told[id := OutcomeOf(s.finished, id)])
    case HearStop(id) => s.(told := s.told[id := WorkerStopped])
  }

  /** Any interleaving of callers and the loop, from a fresh worker. */
  ghost predicate Reaches(events: seq<Event>, s: State)
    decreases |events|
  {
    if events == [] then s == START
    else
      var init, e := events[..|events| - 1], events[|events| - 1];
      exists mid :: Reaches(init, mid) && Enabled(mid, e) && s == Step(mid, e)
  }

  /** The channel holds ten transactions: exactly then the next caller has to wait. */
  lemma QueueHoldsTen(s: State, tx: Tx)
    requires Proper(tx.body) && forall t :: t in s.accepted ==> t.id != tx.id
    ensures Enabled(s, Accept(tx)) <==> |s.queue| < 10
  {
  }

  // ----- Contiguity -----

  /** Every reply of the body answered one of its commands. */
  ghost predicate Genuine(r: Running) {
    forall n :: 0 <= n < |r.replies| ==> NextOf(r.tx.body, r.replies[..n]).Command?
  }

  /** The commands one transaction has issued, with their replies. */
  ghost function Block(r: Running): (b: seq<Entry>)
    requires Genuine(r)
    ensures |b| == |r.replies|
  {
    seq(|r.replies|, n requires 0 <= n < |r.replies| && Genuine(r) =>
      Entry(r.tx.id, NextOf(r.tx.body, r.replies[..n]).cmd, r.replies[n]))
  }

  ghost predicate AllGenuine(rs: seq<Running>) {
    forall i :: 0 <= i < |rs| ==> Genuine(rs[i])
  }

  ghost function Blocks(rs: seq<Running>): seq<Entry>
    requires AllGenuine(rs)
  {
    if rs == [] then [] else Blocks(rs[..|rs| - 1]) + Block(rs[|rs| - 1])
  }

  function CurrentRuns(s: State): seq<Running> {
    if s.current.Some? then [s.current.value] else []
  }

  /** The transactions that have begun, in order. */
  function Begun(s: State): seq<Running> {
    s.finished + CurrentRuns(s)
  }

  /** The log is whole transactions one after the other, and then the one now running. */
  ghost predicate Contiguous(s: State) {
    AllGenuine(Begun(s)) && s.log == Blocks(Begun(s)) && forall r :: r in s.finished ==> Complete(r)
  }

  /** Transactions begin in the order they were accepted, and none is skipped. */
  ghost predicate InOrder(s: State) {
    && |s.accepted| == |Begun(s)| + |s.queue| && |s.queue| <= QUEUE_SIZE
    && (forall i :: 0 <= i < |Begun(s)| ==> s.accepted[i] == Begun(s)[i].tx)
    && (forall i :: 0 <= i < |s.queue| ==> s.accepted[|Begun(s)| + i] == s.queue[i])
    && (forall i, j :: 0 <= i < j < |s.accepted| ==> s.accepted[i].id != s.accepted[j].id)
    && (forall t :: t in s.accepted ==> Proper(t.body))
  }

  /** A caller was told the result of its own body, or that the worker stopped when it had. */
  ghost predicate ToldRight(s: State) {
    forall id :: id in s.told ==>
      match s.told[id]
      case WorkerStopped => s.stopped
      case Result(ok) => exists r :: r in s.finished && r.tx.id == id && NextOf(r.tx.body, r.replies) == Done(ok)
  }

  ghost predicate Orderly(s: State) {
    Contiguous(s) && InOrder(s) && ToldRight(s)
  }

  lemma {:induction false} OutcomeIsOwn(finished: seq<Running>, id: nat)
    requires exists r :: r in finished && r.tx.id == id
    requires forall r :: r in finished ==> Complete(r)
    ensures OutcomeOf(finished, id).Result?
    ensures exists r :: r in finished && r.tx.id == id && NextOf(r.tx.body, r.replies) == Done(OutcomeOf(finished, id).ok)
    decreases |finished|
  {
    var r :| r in finished && r.tx.id == id;
    assert finished[0] in finished;
    if finished[0].tx.id != id {
      assert r in finished[1..];
      OutcomeIsOwn(finished[1..], id);
    }
  }

  lemma OneBlockMore(rs: seq<Running>, r: Running)
    requires AllGenuine(rs) && Genuine(r)
    ensures AllGenuine(rs + [r]) && Blocks(rs + [r]) == Blocks(rs) + Block(r)
  {
    assert (rs + [r])[..|rs|] == rs;
  }

  lemma OneCommandMore(r: Running, reply: Reply)
    requires !Complete(r) && Genuine(r)
    ensures var r' := r.(replies := r.replies + [reply]);
      && Genuine(r')
      && Block(r') == Block(r) + [Entry(r.tx.id, NextOf(r.tx.body, r.replies).cmd, reply)]
  {
    var r' := r.(replies := r.replies + [reply]);
    forall n | 0 <= n < |r'.replies| ensures NextOf(r.tx.body, r'.replies[..n]).Command? {
      assert r'.replies[..n] == r.replies[..n];
      assert n == |r.replies| ==> r.replies[..n] == r.replies;
    }
    forall n | 0 <= n < |r.replies| ensures Block(r')[n] == Block(r)[n] {
      assert r'.replies[..n] == r.replies[..n];
    }
    assert r'.replies[..|r.replies|] == r.replies;
  }

  lemma NothingSaidYet(r: Running)
    requires r.replies == []
    ensures Genuine(r) && Block(r) == []
  {
  }

  lemma StepIsContiguous(s: State, e: Event)
    requires Contiguous(s) && Enabled(s, e)
    ensures Contiguous(Step(s, e))
  {
    hide NextOf, Block, Blocks, Proper, Genuine;
    assert forall i :: 0 <= i < |s.finished| ==> Begun(s)[i] == s.finished[i];
    assert AllGenuine(s.finished);
    match e
    case Take =>
      var r := Running(s.queue[0], []);
      assert Begun(s) == s.finished;
      NothingSaidYet(r);
      OneBlockMore(s.finished, r);
      assert Blocks(s.finished) + [] == Blocks(s.finished);
    case Say(reply) =>
      var r := s.current.value;
      assert Begun(s)[|s.finished|] == r;
      OneCommandMore(r, reply);
      OneBlockMore(s.finished, r);
      OneBlockMore(s.finished, r.(replies := r.replies + [reply]));
    case Finish =>
      assert Begun(Step(s, e)) == Begun(s);
    case _ =>
      assert Begun(Step(s, e)) == Begun(s);
  }

  lemma AcceptIsInOrder(s: State, e: Event)
    requires InOrder(s) && e.Accept? && Enabled(s, e)
    ensures InOrder(Step(s, e))
  {
    hide NextOf, Proper;
    assert Begun(Step(s, e)) == Begun(s);
  }

  lemma TakeIsInOrder(s: State)
    requires InOrder(s) && Enabled(s, Take)
    ensures InOrder(Step(s, Take))
  {
    hide NextOf, Proper;
    assert s.accepted[|Begun(s)|] == s.queue[0];
    assert Begun(Step(s, Take)) == Begun(s) + [Running(s.queue[0], [])];
  }

  lemma OtherIsInOrder(s: State, e: Event)
    requires InOrder(s) && Enabled(s, e) && !e.Accept? && !e.Take?
    ensures InOrder(Step(s, e))
  {
    hide NextOf, Proper;
    var was, now := Begun(s), Begun(Step(s, e));
    assert |now| == |was| && forall i :: 0 <= i < |was| ==> now[i].tx == was[i].tx;
  }

  lemma StepIsInOrder(s: State, e: Event)
    requires InOrder(s) && Enabled(s, e)
    ensures InOrder(Step(s, e))
  {
    hide InOrder;
    match e
    case Accept(_) => AcceptIsInOrder(s, e);
    case Take => TakeIsInOrder(s);
    case _ => OtherIsInOrder(s, e);
  }

  lemma StepTellsRight(s: State, e: Event)
    requires ToldRight(s) && Contiguous(s) && Enabled(s, e)
    ensures ToldRight(Step(s, e))
  {
    hide NextOf, Proper, Blocks, Block;
    var s' := Step(s, e);
    assert forall r :: r in s.finished ==> r in s'.finished;
    if e.HearResult? {
      OutcomeIsOwn(s.finished, e.id);
    }
  }

  lemma StartIsOrderly()
    ensures Orderly(START)
  {
  }

  /** For any number of callers and any interleaving: the port sees whole transactions in the order
      they were accepted, and each caller hears its own result or that the worker stopped. */
  lemma {:induction false} AlwaysOrderly(events: seq<Event>, s: State)
    requires Reaches(events, s)
    ensures Orderly(s)
    decreases |events|
  {
    hide Contiguous, InOrder, ToldRight;
    if events == [] {
      StartIsOrderly();
    } else {
      var init, e := events[..|events| - 1], events[|events| - 1];
      var mid :| Reaches(init, mid) && Enabled(mid, e) && s == Step(mid, e);
      AlwaysOrderly(init, mid);
      StepIsContiguous(mid, e);
      StepIsInOrder(mid, e);
      StepTellsRight(mid, e);
    }
  }

  // ----- A prompt is answered by its own segment -----

  /** The modem now waits for a message and takes whatever is written next as part of it. */
  predicate Prompted(e: Entry) {
    HasPrefix(e.cmd, "AT+CMGS=") && !IsError(e.reply) && Contains(Text(e.reply), ">")
  }

  lemma {:induction false} PhaseInRange(segments: seq<Segment>, replies: seq<Reply>)
    ensures match PhaseAfter(segments, replies)
      case Announce(k) => k < |segments|
      case Submit(k) => k < |segments|
      case _ => true
    decreases |replies|
  {
    if replies != [] {
      PhaseInRange(segments, replies[..|replies| - 1]);
    }
  }

  /** Inside one transaction: a prompt comes only while a segment is being announced; then that
      segment is next, and after a failure the escape. */
  lemma PromptInside(r: Running, n: nat) returns (k: nat)
    requires Genuine(r) && Proper(r.tx.body) && n < |r.replies| && Prompted(Block(r)[n])
    ensures r.tx.body.SendBody? && k < |r.tx.body.segments|
    ensures Block(r)[n].cmd == AnnounceCommand(r.tx.body.segments[k])
    ensures NextOf(r.tx.body, r.replies[..n + 1]) == Command(r.tx.body.segments[k].pdu + CTRL_Z)
    ensures n + 1 < |r.replies| && IsError(r.replies[n + 1]) ==>
      NextOf(r.tx.body, r.replies[..n + 2]) == Command(ESC)
  {
    hide Contains, Decimal;
    k := Announces(r, n);
    var segments, before := r.tx.body.segments, r.replies[..n];
    assert r.replies[..n + 1][..n] == before;
    assert PhaseAfter(segments, r.replies[..n + 1]) == Submit(k);
    if n + 1 < |r.replies| {
      assert r.replies[..n + 2][..n + 1] == r.replies[..n + 1];
    }
  }

  /** Where the i-th command of the log belongs: transaction j, command n. */
  lemma {:induction false} Locate(rs: seq<Running>, i: nat) returns (j: nat, n: nat)
    requires AllGenuine(rs) && i < |Blocks(rs)|
    ensures j < |rs| && n < |rs[j].replies| && n <= i
    ensures i - n + |rs[j].replies| <= |Blocks(rs)|
    ensures forall m :: 0 <= m < |rs[j].replies| ==> Blocks(rs)[i - n + m] == Block(rs[j])[m]
    ensures j == |rs| - 1 ==> i - n + |rs[j].replies| == |Blocks(rs)|
    ensures AllGenuine(rs[..j]) && i - n == |Blocks(rs[..j])|
    decreases |rs|
  {
    hide Block;
    var front := rs[..|rs| - 1];
    if i < |Blocks(front)| {
      j, n := Locate(front, i);
      assert front[..j] == rs[..j];
    } else {
      j, n := |rs| - 1, i - |Blocks(front)|;
    }
  }

  /** In every reachable state, whatever the other callers do: after a prompt the very next command
      at the port is the announced segment of the same message, and if that fails the one after it
      is the escape. */
  lemma PromptIsAnswered(events: seq<Event>, s: State, i: nat) returns (tx: Tx, k: nat)
    requires Reaches(events, s) && i < |s.log| && Prompted(s.log[i])
    ensures tx in s.accepted && tx.id == s.log[i].id && tx.body.SendBody? && k < |tx.body.segments|
    ensures s.log[i].cmd == AnnounceCommand(tx.body.segments[k])
    ensures var submit, last := tx.body.segments[k].pdu + CTRL_Z, |s.log| - 1;
      if i < last
      then s.log[i + 1].id == tx.id && s.log[i + 1].cmd == submit
      else s.current.Some? && s.current.value.tx == tx && NextOf(tx.body, s.current.value.replies) == Command(submit)
    ensures i + 1 < |s.log| && IsError(s.log[i + 1].reply) ==>
      if i + 2 < |s.log|
      then s.log[i + 2].id == tx.id && s.log[i + 2].cmd == ESC
      else s.current.Some? && s.current.value.tx == tx && NextOf(tx.body, s.current.value.replies) == Command(ESC)
  {
    hide NextOf, Prompted, Blocks, Proper, CommandFor, AnnounceCommand;
    AlwaysOrderly(events, s);
    var rs := Begun(s);
    var j, n := Locate(rs, i);
    var r := rs[j];
    tx := r.tx;
    assert tx == s.accepted[j];
    assert s.log[i] == Block(r)[n];
    k := PromptInside(r, n);
    assert r.replies[..|r.replies|] == r.replies;
    if j < |s.finished| {
      assert r in s.finished && Complete(r);
    } else {
      assert r == s.current.value;
    }
    if n + 1 < |r.replies| {
      assert s.log[i + 1] == Block(r)[n + 1];
      if n + 2 < |r.replies| && IsError(r.replies[n + 1]) {
        assert s.log[i + 2] == Block(r)[n + 2];
      }
    }
  }

  // ----- A prompt that comes too late -----

  /** Announcing a segment while the modem's prompt is under way: the segment follows exactly when the
      wait outlasts the lines before the prompt. Otherwise the send is over, nothing more is written
      for it, and the prompt is left for the next command to find. */
  lemma LatePrompt(segments: seq<Segment>, k: nat, body: seq<string>, rest: seq<Message>, limit: nat, why: Interrupt)
    requires k < |segments|
    requires forall l :: l in body ==> Passes(l, AnnounceCommand(segments[k]))
    ensures var rx := AsLines(body + [">"]) + rest;
      var c := Collect(AnnounceCommand(segments[k]), rx, limit, why, []);
      var after := Advance(segments, Announce(k), c.reply);
      && (after == Submit(k) <==> limit > |body|)
      && (limit <= |body| ==> after == Over(false) && rx[c.used..] == AsLines(body[limit..] + [">"]) + rest)
  {
    var cmd := AnnounceCommand(segments[k]);
    assert cmd[..8] == "AT+CMGS=" && IsPrompt(">", cmd);
    hide AnnounceCommand;
    AnswerIsOwnIffInTime(cmd, body, ">", rest, limit, why, []);
    if limit > |body| {
      FirstFinalLineDecides(cmd, body, ">", rest, limit, why, []);
      assert ">"[0..] == ">" && Contains(">", ">");
    }
  }

  /** Submitting a segment while the network's reference is under way: a confirmation that comes after
      the wait makes the send fail, though the message has been taken. */
  lemma LateConfirmation(segments: seq<Segment>, k: nat, body: seq<string>, rest: seq<Message>, limit: nat, why: Interrupt)
    requires k < |segments| && HasPrefix(segments[k].pdu, "00")
    requires forall l :: l in body ==> Passes(l, segments[k].pdu + CTRL_Z)
    requires Contains(Join(body + ["OK"], '\n'), "+CMGS:")
    ensures var c := Collect(segments[k].pdu + CTRL_Z, AsLines(body + ["OK"]) + rest, limit, why, []);
      Advance(segments, Submit(k), c.reply) == if limit > |body| then NextSegment(segments, k + 1) else Abort
    ensures forall reply :: Advance(segments, Abort, reply) == Over(false)
  {
    hide Contains;
    var cmd := segments[k].pdu + CTRL_Z;
    assert cmd[0] == segments[k].pdu[..2][0] == '0';
    assert !IsPrompt("OK", cmd);
    AnswerIsOwnIffInTime(cmd, body, "OK", rest, limit, why, []);
    if limit > |body| {
      FirstFinalLineDecides(cmd, body, "OK", rest, limit, why, []);
      assert [] + body + ["OK"] == body + ["OK"];
    }
  }

  /** Inside one transaction: an announcement not answered by a prompt ends it. */
  lemma NoPromptInside(r: Running, n: nat)
    requires Genuine(r) && Proper(r.tx.body) && n < |r.replies|
    requires HasPrefix(Block(r)[n].cmd, "AT+CMGS=") && !Prompted(Block(r)[n])
    ensures NextOf(r.tx.body, r.replies[..n + 1]) == Done(false) && n + 1 == |r.replies|
  {
    hide Contains, Decimal;
    var k := Announces(r, n);
    var segments := r.tx.body.segments;
    assert r.replies[..n + 1][..n] == r.replies[..n];
    assert PhaseAfter(segments, r.replies[..n + 1]) == Over(false);
  }

  lemma Announces(r: Running, n: nat) returns (k: nat)
    requires Genuine(r) && Proper(r.tx.body) && n < |r.replies| && HasPrefix(Block(r)[n].cmd, "AT+CMGS=")
    ensures r.tx.body.SendBody? && k < |r.tx.body.segments|
    ensures PhaseAfter(r.tx.body.segments, r.replies[..n]) == Announce(k)
  {
    hide Contains, Decimal;
    var segments, before := r.tx.body.segments, r.replies[..n];
    var cmd := NextOf(r.tx.body, before).cmd;
    var phase := PhaseAfter(segments, before);
    PhaseInRange(segments, before);
    var p := "AT+CMGS=";
    assert cmd[..8] == p && forall c :: 0 <= c < 8 ==> cmd[c] == cmd[..8][c];
    assert cmd[0] == p[0] && cmd[4] == p[4] && cmd[6] == p[6];
    forall i | 0 <= i < |segments| ensures CommandFor(segments, Submit(i))[0] == '0' {
      assert segments[i].pdu[0] == segments[i].pdu[..2][0];
    }
    k := phase.k;
  }

  /** In every reachable state: the message that announced a segment keeps the port for the next
      command exactly when it saw the prompt. If it did not, whether the modem never sent one or sent
      it after the wait, whatever is written next comes from another transaction. */
  lemma KeepsPortIffPrompted(events: seq<Event>, s: State, i: nat)
    requires Reaches(events, s) && i + 1 < |s.log| && HasPrefix(s.log[i].cmd, "AT+CMGS=")
    ensures s.log[i + 1].id == s.log[i].id <==> Prompted(s.log[i])
  {
    if Prompted(s.log[i]) {
      var _, _ := PromptIsAnswered(events, s, i);
    } else {
      AlwaysOrderly(events, s);
      hide NextOf, Prompted, Blocks, Proper, CommandFor, AnnounceCommand;
      var rs := Begun(s);
      var j, n := Locate(rs, i);
      var j', n' := Locate(rs, i + 1);
      assert rs[j].tx == s.accepted[j] && rs[j'].tx == s.accepted[j'];
      assert s.log[i] == Block(rs[j])[n] && s.log[i + 1] == Block(rs[j'])[n'];
      NoPromptInside(rs[j], n);
    }
  }
}
