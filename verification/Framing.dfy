/** readLoop in internal/worker/worker.go: from the bytes a modem sends to the lines the worker
    sees. */
module Framing {
  import opened GoStrings

  datatype Message = Line(text: string) | ReadError

  /** One answer of the serial port: some bytes, a recoverable condition such as a timeout, or an
      error that ends the loop. */
  datatype Read = Bytes(data: string) | Nothing | Broken

  /** The unfinished line, and everything handed to the worker so far. */
  datatype Framer = Framer(buf: string, out: seq<Message>)

  const EMPTY := Framer("", [])

  // ----- What the loop computes -----

  function Flush(f: Framer): Framer {
    var line := TrimSpace(f.buf);
    Framer("", if line == "" then f.out else f.out + [Line(line)])
  }

  function Feed(f: Framer, b: char): Framer {
    if b == '\r' then f
    else if b == '\n' then Flush(f)
    else if b == '>' && TrimSpace(f.buf) == "" then Framer("", f.out + [Line(">")])
    else f.(buf := f.buf + [b])
  }

  function FeedAll(f: Framer, bytes: string): Framer
    decreases |bytes|
  {
    if bytes == "" then f else FeedAll(Feed(f, bytes[0]), bytes[1..])
  }

  function Consume(f: Framer, answers: seq<Read>): Framer
    decreases |answers|
  {
    if answers == [] then f
    else match answers[0]
      case Bytes(data) => Consume(FeedAll(f, data), answers[1..])
      case Nothing => Consume(f, answers[1..])
      case Broken => f.(out := f.out + [ReadError])
  }

  class Reader {
    var lineBuf: string
    var rx: seq<Message>

    constructor ()
      ensures lineBuf == "" && rx == []
    {
      lineBuf, rx := "", [];
    }

    method FlushLine()
      modifies this
      ensures Framer(lineBuf, rx) == Flush(old(Framer(lineBuf, rx)))
    {
      if |lineBuf| == 0 {
        return;
      }
      var line := TrimSpace(lineBuf);
      lineBuf := "";
      if line == "" {
        return;
      }
      rx := rx + [Line(line)];
    }

    method Accept(buf: string)
      modifies this
      ensures Framer(lineBuf, rx) == FeedAll(old(Framer(lineBuf, rx)), buf)
    {
      ghost var f0 := Framer(lineBuf, rx);
      for i := 0 to |buf|
        invariant FeedAll(Framer(lineBuf, rx), buf[i..]) == FeedAll(f0, buf)
      {
        var b := buf[i];
        assert buf[i..][1..] == buf[i + 1..];
        if b == '\r' {
          continue;
        } else if b == '\n' {
          FlushLine();
        } else if b == '>' {
          if TrimSpace(lineBuf) == "" {
            rx := rx + [Line(">")];
            lineBuf := "";
            continue;
          }
          lineBuf := lineBuf + [b];
        } else {
          lineBuf := lineBuf + [b];
        }
      }
    }

    method ReadLoop(answers: seq<Read>)
      modifies this
      ensures Framer(lineBuf, rx) == Consume(old(Framer(lineBuf, rx)), answers)
    {
      ghost var f0 := Framer(lineBuf, rx);
      for i := 0 to |answers|
        invariant Consume(Framer(lineBuf, rx), answers[i..]) == Consume(f0, answers)
      {
        assert answers[i..][1..] == answers[i + 1..];
        match answers[i] {
          case Bytes(data) =>
            if |data| == 0 {
              continue;
            }
            Accept(data);
          case Nothing =>
            continue;
          case Broken =>
            rx := rx + [ReadError];
            return;
        }
      }
    }
  }

  // ----- How the bytes are split into reads does not matter -----

  lemma {:induction false} FeedConcat(f: Framer, a: string, b: string)
    ensures FeedAll(f, a + b) == FeedAll(FeedAll(f, a), b)
    decreases |a|
  {
    if a == "" {
      assert a + b == b;
    } else {
      assert (a + b)[1..] == a[1..] + b;
      FeedConcat(Feed(f, a[0]), a[1..], b);
    }
  }

  /** All bytes received, in order. */
  function Received(answers: seq<Read>): string {
    if answers == [] then ""
    else (if answers[0].Bytes? then answers[0].data else "") + Received(answers[1..])
  }

  lemma {:induction false} SplitsDoNotMatter(f: Framer, answers: seq<Read>)
    requires Broken !in answers
    ensures Consume(f, answers) == FeedAll(f, Received(answers))
    decreases |answers|
  {
    if answers != [] {
      match answers[0]
      case Bytes(data) =>
        FeedConcat(f, data, Received(answers[1..]));
        SplitsDoNotMatter(FeedAll(f, data), answers[1..]);
      case Nothing =>
        assert "" + Received(answers[1..]) == Received(answers[1..]);
        SplitsDoNotMatter(f, answers[1..]);
    }
  }

  // ----- Lines come back as they were sent -----

  /** A line a modem can send: nothing to trim, no line ends inside, and not a prompt. */
  predicate Clean(l: string) {
    Trimmed(l) && '\r' !in l && '\n' !in l && l[0] != '>'
  }

  /** The lines on the wire: each after any white space, line ends included, and before CR LF. */
  function Wire(lines: seq<string>, pads: seq<string>): string
    requires |lines| == |pads|
  {
    if lines == [] then "" else pads[0] + lines[0] + "\r\n" + Wire(lines[1..], pads[1..])
  }

  function AsLines(lines: seq<string>): (r: seq<Message>)
    ensures |r| == |lines|
    ensures forall i :: 0 <= i < |r| ==> r[i] == Line(lines[i])
  {
    seq(|lines|, i requires 0 <= i < |lines| => Line(lines[i]))
  }

  lemma {:induction false} FeedBlank(f: Framer, pad: string)
    requires Blank(f.buf) && Blank(pad)
    ensures FeedAll(f, pad).out == f.out && Blank(FeedAll(f, pad).buf)
    decreases |pad|
  {
    if pad != "" {
      TrimPadded(f.buf, "");
      FeedBlank(Feed(f, pad[0]), pad[1..]);
    }
  }

  /** Bytes of a clean line after its first byte just pile up. */
  lemma {:induction false} FeedInside(f: Framer, l: string)
    requires !Blank(f.buf) && '\r' !in l && '\n' !in l
    ensures FeedAll(f, l) == f.(buf := f.buf + l)
    decreases |l|
  {
    if l == "" {
      assert f.buf + l == f.buf;
    } else {
      TrimEmptyIffBlank(f.buf);
      var next := Feed(f, l[0]);
      assert next.buf == f.buf + [l[0]];
      var k :| 0 <= k < |f.buf| && !IsSpace(f.buf[k]);
      assert next.buf[k] == f.buf[k];
      FeedInside(next, l[1..]);
      assert f.buf + [l[0]] + l[1..] == f.buf + l;
    }
  }

  lemma FeedLine(f: Framer, l: string)
    requires Blank(f.buf) && Clean(l)
    ensures FeedAll(f, l + "\r\n") == Framer("", f.out + [Line(l)])
  {
    var first := Feed(f, l[0]);
    assert first.buf == f.buf + [l[0]] && !IsSpace(first.buf[|f.buf|]);
    FeedInside(first, l[1..]);
    var whole := FeedAll(f, l);
    assert whole.buf == f.buf + l by {
      assert f.buf + [l[0]] + l[1..] == f.buf + l;
    }
    FeedConcat(f, l, "\r\n");
    assert "\r\n"[1..] == "\n" && "\n"[1..] == "";
    assert FeedAll(whole, "\r\n") == FeedAll(Feed(Feed(whole, '\r'), '\n'), "");
    TrimPadded(f.buf, l);
  }

  lemma FeedFirst(f: Framer, pad: string, l: string, rest: string)
    requires Blank(f.buf) && Blank(pad) && Clean(l)
    ensures FeedAll(f, pad + l + "\r\n" + rest) == FeedAll(Framer("", f.out + [Line(l)]), rest)
  {
    var sent := l + "\r\n";
    assert pad + l + "\r\n" + rest == pad + (sent + rest);
    FeedConcat(f, pad, sent + rest);
    FeedBlank(f, pad);
    var g := FeedAll(f, pad);
    FeedConcat(g, sent, rest);
    FeedLine(g, l);
  }

  /** Framing undoes sending, for clean lines under any padding. */
  lemma {:induction false} FramingRoundTrip(f: Framer, lines: seq<string>, pads: seq<string>)
    requires |lines| == |pads| && Blank(f.buf)
    requires (forall l :: l in lines ==> Clean(l)) && (forall p :: p in pads ==> Blank(p))
    ensures FeedAll(f, Wire(lines, pads)).out == f.out + AsLines(lines)
    ensures Blank(FeedAll(f, Wire(lines, pads)).buf)
    decreases |lines|
  {
    hide FeedAll, Clean, Blank;
    if lines == [] {
      assert f.out + AsLines(lines) == f.out;
      FeedNone(f);
    } else {
      var next := Framer("", f.out + [Line(lines[0])]);
      FeedFirst(f, pads[0], lines[0], Wire(lines[1..], pads[1..]));
      EmptyIsBlank();
      FramingRoundTrip(next, lines[1..], pads[1..]);
      assert f.out + AsLines(lines) == next.out + AsLines(lines[1..]);
    }
  }

  lemma FeedNone(f: Framer)
    ensures FeedAll(f, "") == f
  {
  }

  lemma EmptyIsBlank()
    ensures Blank("")
  {
  }

  /** A prompt is reported as soon as its character arrives, without waiting for a line end, and
      whatever follows it starts a line of its own. */
  lemma PromptIsImmediate(f: Framer, pad: string)
    requires Blank(f.buf) && Blank(pad)
    ensures FeedAll(f, pad + ">") == Framer("", f.out + [Line(">")])
  {
    FeedConcat(f, pad, ">");
    FeedBlank(f, pad);
    TrimPadded(FeedAll(f, pad).buf, "");
    assert ">"[1..] == "";
  }

  // ----- Framing is splitting at line ends -----

  function WithoutCr(s: string): string {
    if s == "" then "" else (if s[0] == '\r' then "" else [s[0]]) + WithoutCr(s[1..])
  }

  /** Carriage returns count for nothing, wherever they are. */
  lemma {:induction false} CarriageReturnsVanish(f: Framer, bytes: string)
    ensures FeedAll(f, bytes) == FeedAll(f, WithoutCr(bytes))
    decreases |bytes|
  {
    if bytes != "" {
      CarriageReturnsVanish(Feed(f, bytes[0]), bytes[1..]);
      if bytes[0] == '\r' {
        assert "" + WithoutCr(bytes[1..]) == WithoutCr(bytes[1..]);
      } else {
        assert WithoutCr(bytes)[0] == bytes[0] && WithoutCr(bytes)[1..] == WithoutCr(bytes[1..]);
      }
    }
  }

  /** Nothing in this piece of text could be a prompt. */
  predicate NoPrompt(piece: string) {
    TrimSpace(piece) == "" || TrimSpace(piece)[0] != '>'
  }

  /** The messages made of whole lines: trimmed, without the empty ones. */
  function LinesOf(pieces: seq<string>): seq<Message> {
    if pieces == [] then []
    else (if TrimSpace(pieces[0]) == "" then [] else [Line(TrimSpace(pieces[0]))]) + LinesOf(pieces[1..])
  }

  lemma {:induction false} FeedPiece(q: string, r: string, out: seq<Message>)
    requires '\n' !in r && '\r' !in r && NoPrompt(q + r)
    ensures FeedAll(Framer(q, out), r) == Framer(q + r, out)
    decreases |r|
  {
    if r == "" {
      assert q + r == q;
    } else {
      if r[0] == '>' && TrimSpace(q) == "" {
        TrimEmptyIffBlank(q);
        TrimLeftSkips(q, r);
        TrimRightKeepsFirst(r);
        assert false;
      }
      assert q + [r[0]] + r[1..] == q + r;
      FeedPiece(q + [r[0]], r[1..], out);
    }
  }

  lemma {:induction false} SplitHead(s: string, sep: char)
    ensures var ps := Split(s, sep);
      && sep !in ps[0]
      && if |ps| == 1 then s == ps[0]
         else |ps[0]| < |s| && s == ps[0] + [sep] + s[|ps[0]| + 1..] && Split(s[|ps[0]| + 1..], sep) == ps[1..]
  {
    if s != "" {
      SplitHead(s[1..], sep);
      var ps, rest := Split(s, sep), Split(s[1..], sep);
      if s[0] == sep {
        assert s == [] + [sep] + s[1..];
      } else {
        assert ps[0] == [s[0]] + rest[0] && ps[1..] == rest[1..];
        HeadGrows(s, rest[0], sep);
      }
    }
  }

  lemma HeadGrows(s: string, head: string, sep: char)
    requires s != "" && s[0] != sep
    ensures s[1..] == head ==> s == [s[0]] + head
    ensures |head| < |s| - 1 && s[1..] == head + [sep] + s[1..][|head| + 1..] ==>
      s[|head| + 2..] == s[1..][|head| + 1..] && s == ([s[0]] + head) + [sep] + s[|head| + 2..]
  {
    assert s == [s[0]] + s[1..];
    if |head| < |s| - 1 && s[1..] == head + [sep] + s[1..][|head| + 1..] {
      assert s[|head| + 2..] == s[1..][|head| + 1..];
    }
  }

  /** For any text without prompts, framing is: split at line feeds, trim, drop the empty lines, and
      keep what follows the last line feed. */
  lemma {:induction false} FramingIsSplitting(s: string, out: seq<Message>)
    requires '\r' !in s && forall p :: p in Split(s, '\n') ==> NoPrompt(p)
    ensures var ps := Split(s, '\n');
      FeedAll(Framer("", out), s) == Framer(ps[|ps| - 1], out + LinesOf(ps[..|ps| - 1]))
    decreases |s|
  {
    var ps := Split(s, '\n');
    SplitHead(s, '\n');
    assert "" + ps[0] == ps[0] && ps[0] in ps;
    if |ps| == 1 {
      FeedPiece("", s, out);
      assert out + [] == out;
    } else {
      var head, rest := ps[0], s[|ps[0]| + 1..];
      var next := Flush(Framer(head, out));
      assert forall p :: p in Split(rest, '\n') ==> p in ps;
      assert '\r' !in head && '\r' !in rest by {
        assert forall c :: c in head || c in rest ==> c in s;
      }
      FeedWholeLine(head, rest, out);
      FramingIsSplitting(rest, next.out);
      LinesHead(ps, out);
    }
  }

  lemma FeedWholeLine(head: string, rest: string, out: seq<Message>)
    requires '\n' !in head && '\r' !in head && NoPrompt(head)
    ensures FeedAll(Framer("", out), head + ['\n'] + rest) == FeedAll(Flush(Framer(head, out)), rest)
  {
    assert "" + head == head;
    FeedPiece("", head, out);
    FeedConcat(Framer("", out), head + ['\n'], rest);
    FeedConcat(Framer("", out), head, ['\n']);
    assert FeedAll(Framer(head, out), ['\n']) == Flush(Framer(head, out));
  }

  lemma LinesHead(ps: seq<string>, out: seq<Message>)
    requires |ps| > 1
    ensures var rest := ps[1..];
      && rest[|rest| - 1] == ps[|ps| - 1]
      && Flush(Framer(ps[0], out)).out + LinesOf(rest[..|rest| - 1]) == out + LinesOf(ps[..|ps| - 1])
  {
    hide TrimSpace;
    var init := ps[..|ps| - 1];
    assert init[0] == ps[0] && init[1..] == ps[1..][..|ps[1..]| - 1];
    assert [] + LinesOf(init[1..]) == LinesOf(init[1..]);
    assert out + ([Line(TrimSpace(ps[0]))] + LinesOf(init[1..])) == (out + [Line(TrimSpace(ps[0]))]) + LinesOf(init[1..]);
  }

  /** A fatal error is reported once and last: what came before it is framed, what would follow is
      not read. */
  lemma {:induction false} FatalErrorIsLast(f: Framer, before: seq<Read>, after: seq<Read>)
    requires Broken !in before
    ensures var g := FeedAll(f, Received(before));
      Consume(f, before + [Broken] + after) == g.(out := g.out + [ReadError])
    decreases |before|
  {
    var all := before + [Broken] + after;
    if before != [] {
      assert all[0] == before[0] && all[1..] == before[1..] + [Broken] + after;
      match before[0]
      case Bytes(data) =>
        FeedConcat(f, data, Received(before[1..]));
        FatalErrorIsLast(FeedAll(f, data), before[1..], after);
      case Nothing =>
        assert "" + Received(before[1..]) == Received(before[1..]);
        FatalErrorIsLast(f, before[1..], after);
    }
  }
}
