/** internal/calling/ringbuffer.go: the bounded sample queue between a call and the sound device. */
module RingBuffer {
  newtype int16 = x: int | -0x8000 <= x <= 0x7FFF

  /** The last n samples of s, or all of them when there are fewer. */
  function KeepLast(s: seq<int16>, n: nat): (r: seq<int16>)
    ensures |r| <= n && |r| <= |s| && r == s[|s| - |r|..]
    ensures |s| <= n ==> r == s
    ensures |s| > n ==> |r| == n
  {
    if |s| <= n then s else s[|s| - n..]
  }

  lemma KeepLastStep(s: seq<int16>, v: int16, n: nat)
    requires n > 0
    ensures KeepLast(s + [v], n) == (var k := KeepLast(s, n); if |k| == n then k[1..] + [v] else k + [v])
  {
  }

  lemma KeepLastNext(s: seq<int16>, data: seq<int16>, i: nat, n: nat)
    requires n > 0 && i < |data|
    ensures KeepLast(s + data[..i + 1], n)
      == (var k := KeepLast(s + data[..i], n); if |k| == n then k[1..] + [data[i]] else k + [data[i]])
  {
    assert s + data[..i + 1] == (s + data[..i]) + [data[i]];
    KeepLastStep(s + data[..i], data[i], n);
  }

  /** An index less than two laps from the start, brought back into the buffer. */
  function Wrap(i: nat, n: nat): (r: nat)
    requires i < 2 * n
    ensures r < n
  {
    if i < n then i else i - n
  }

  lemma ModIsWrap(i: nat, n: nat)
    requires i < 2 * n
    ensures i % n == Wrap(i, n)
  {
    if i >= n {
      assert i == (i - n) + n;
      assert i % n == (i - n) % n;
    }
  }

  /** count samples of a circular buffer, starting at head. */
  function Window(buf: seq<int16>, head: nat, count: nat): (r: seq<int16>)
    requires head < |buf| && count <= |buf|
    ensures |r| == count
    ensures forall i :: 0 <= i < count ==> r[i] == buf[Wrap(head + i, |buf|)]
  {
    seq(count, i requires 0 <= i < count => buf[Wrap(head + i, |buf|)])
  }

  lemma DropOldest(buf: seq<int16>, head: nat, count: nat)
    requires head < |buf| && 0 < count <= |buf|
    ensures Window(buf, Wrap(head + 1, |buf|), count - 1) == Window(buf, head, count)[1..]
  {
    var r, s := Window(buf, Wrap(head + 1, |buf|), count - 1), Window(buf, head, count);
    forall i | 0 <= i < |r| ensures r[i] == s[1..][i] {
      assert s[1..][i] == s[i + 1];
    }
  }

  lemma AppendNewest(buf: seq<int16>, head: nat, count: nat, v: int16)
    requires head < |buf| && count < |buf|
    ensures Window(buf[Wrap(head + count, |buf|) := v], head, count + 1) == Window(buf, head, count) + [v]
  {
    var r, s := Window(buf[Wrap(head + count, |buf|) := v], head, count + 1), Window(buf, head, count);
    forall i | 0 <= i < count ensures r[i] == s[i] {
    }
  }

  class Int16Ring {
    const buf: array<int16>
    var head: nat
    var tail: nat
    var count: nat
    var shutdown: bool

    ghost predicate Valid()
      reads this, buf
    {
      && head < buf.Length && count <= buf.Length
      && tail == Wrap(head + count, buf.Length)
    }

    ghost function Contents(): seq<int16>
      reads this, buf
      requires Valid()
    {
      Window(buf[..], head, count)
    }

    constructor (capacity: int)
      ensures Valid() && fresh(buf) && buf.Length == (if capacity < 1 then 1 else capacity)
      ensures Contents() == [] && !shutdown
    {
      var n := if capacity < 1 then 1 else capacity;
      buf := new int16[n](_ => 0);
      head, tail, count, shutdown := 0, 0, 0, false;
    }

    method Close()
      requires Valid()
      modifies this`shutdown
      ensures Valid() && shutdown && Contents() == old(Contents())
    {
      shutdown := true;
    }

    /** One sample out, as in the bodies of both loops below. */
    method Pop() returns (v: int16)
      requires Valid() && count > 0
      modifies this`head, this`count
      ensures Valid() && count == old(count) - 1
      ensures v == old(Contents())[0] && Contents() == old(Contents())[1..]
    {
      DropOldest(buf[..], head, count);
      ModIsWrap(head + 1, buf.Length);
      assert Contents()[0] == buf[head];
      v := buf[head];
      head := (head + 1) % buf.Length;
      count := count - 1;
    }

    /** One sample in, as in Write's loop once there is room. */
    method Push(v: int16)
      requires Valid() && count < buf.Length
      modifies this`tail, this`count, buf
      ensures Valid() && count == old(count) + 1
      ensures Contents() == old(Contents()) + [v]
    {
      AppendNewest(buf[..], head, count, v);
      ModIsWrap(tail + 1, buf.Length);
      ghost var s := buf[..];
      buf[tail] := v;
      assert buf[..] == s[tail := v];
      tail := (tail + 1) % buf.Length;
      count := count + 1;
    }

    /** A full buffer gives up its oldest sample to make room. */
    method Put(v: int16)
      requires Valid()
      modifies this`head, this`tail, this`count, buf
      ensures Valid()
      ensures var k := old(Contents());
        Contents() == if |k| == buf.Length then k[1..] + [v] else k + [v]
    {
      hide Window;
      if count == buf.Length {
        var _ := Pop();
      }
      Push(v);
    }

    method Write(data: seq<int16>)
      requires Valid()
      modifies this`head, this`tail, this`count, buf
      ensures Valid()
      ensures Contents() == KeepLast(old(Contents()) + data, buf.Length)
    {
      hide Window, KeepLast;
      ghost var before := Contents();
      assert before + data[..0] == before;
      for i := 0 to |data|
        invariant Valid()
        invariant Contents() == KeepLast(before + data[..i], buf.Length)
      {
        KeepLastNext(before, data, i, buf.Length);
        Put(data[i]);
      }
      assert data[..|data|] == data;
    }

    method ReadPartial(dst: array<int16>) returns (n: nat, ok: bool)
      requires Valid() && dst != buf
      modifies this`head, this`count, dst
      ensures Valid() && ok == !shutdown
      ensures n == if shutdown then 0
                   else if |old(Contents())| < dst.Length then |old(Contents())| else dst.Length
      ensures dst[..] == old(Contents())[..n] + old(dst[..])[n..]
      ensures Contents() == old(Contents())[n..]
    {
      hide Window;
      if shutdown {
        return 0, false;
      }
      if dst.Length == 0 || count == 0 {
        return 0, true;
      }
      n := dst.Length;
      if n > count {
        n := count;
      }
      ghost var c, d := Contents(), dst[..];
      for i := 0 to n
        invariant Valid() && Contents() == c[i..]
        invariant forall k :: 0 <= k < i ==> dst[k] == c[k]
        invariant forall k :: i <= k < dst.Length ==> dst[k] == d[k]
      {
        dst[i] := Pop();
      }
      ok := true;
    }
  }

  // ----- Whole runs -----

  datatype Op = Write(data: seq<int16>) | Read(len: nat) | Close

  /** What the methods above do to the queue, plus everything ever written and read. */
  datatype History = History(queue: seq<int16>, shut: bool, written: seq<int16>, read: seq<int16>)

  function Step(h: History, cap: nat, op: Op): History {
    match op
    case Write(data) => h.(queue := KeepLast(h.queue + data, cap), written := h.written + data)
    case Read(len) =>
      var n := if h.shut then 0 else if len < |h.queue| then len else |h.queue|;
      h.(queue := h.queue[n..], read := h.read + h.queue[..n])
    case Close => h.(shut := true)
  }

  function Run(h: History, cap: nat, ops: seq<Op>): History
    decreases |ops|
  {
    if ops == [] then h else Run(Step(h, cap, ops[0]), cap, ops[1..])
  }

  /** No write along the run finds the buffer too full. */
  ghost predicate NeverOverflows(h: History, cap: nat, ops: seq<Op>)
    decreases |ops|
  {
    ops != [] ==>
      && (ops[0].Write? ==> |h.queue| + |ops[0].data| <= cap)
      && NeverOverflows(Step(h, cap, ops[0]), cap, ops[1..])
  }

  ghost predicate Subsequence(a: seq<int16>, b: seq<int16>)
    decreases |b|
  {
    if a == [] then true
    else b != [] && if a[|a| - 1] == b[|b| - 1] then Subsequence(a[..|a| - 1], b[..|b| - 1])
                    else Subsequence(a, b[..|b| - 1])
  }

  lemma {:induction false} SubsequenceWeakens(a: seq<int16>, b: seq<int16>)
    requires a != [] && Subsequence(a, b)
    ensures Subsequence(a[..|a| - 1], b)
    decreases |b|
  {
    var a', b' := a[..|a| - 1], b[..|b| - 1];
    if a' != [] {
      if a[|a| - 1] == b[|b| - 1] {
        if a'[|a'| - 1] == b[|b| - 1] {
          SubsequenceWeakens(a', b');
        }
      } else {
        SubsequenceWeakens(a, b');
        if a'[|a'| - 1] == b[|b| - 1] {
          SubsequenceWeakens(a', b');
        }
      }
    }
  }

  lemma {:induction false} SubsequenceSkips(a: seq<int16>, b: seq<int16>, x: seq<int16>)
    requires Subsequence(a, b)
    ensures Subsequence(a, b + x)
    decreases |x|
  {
    if x == [] {
      assert b + x == b;
    } else {
      var x' := x[..|x| - 1];
      SubsequenceSkips(a, b, x');
      assert (b + x)[..|b + x| - 1] == b + x';
      if a != [] && a[|a| - 1] == (b + x)[|b + x| - 1] {
        SubsequenceWeakens(a, b + x');
      }
    }
  }

  lemma {:induction false} SubsequenceExtends(a: seq<int16>, b: seq<int16>, x: seq<int16>)
    requires Subsequence(a, b)
    ensures Subsequence(a + x, b + x)
    decreases |x|
  {
    if x == [] {
      assert a + x == a && b + x == b;
    } else {
      var x' := x[..|x| - 1];
      SubsequenceExtends(a, b, x');
      assert (a + x)[..|a + x| - 1] == a + x' && (b + x)[..|b + x| - 1] == b + x';
    }
  }

  /** past is everything that has left the queue, read or overwritten. */
  ghost predicate Accounted(h: History, past: seq<int16>) {
    h.written == past + h.queue && Subsequence(h.read, past)
  }

  lemma MoveAcross(past: seq<int16>, queue: seq<int16>, n: nat)
    requires n <= |queue|
    ensures past + queue == (past + queue[..n]) + queue[n..]
  {
  }

  lemma WriteAccounted(h: History, cap: nat, data: seq<int16>, past: seq<int16>) returns (past': seq<int16>)
    requires Accounted(h, past)
    ensures Accounted(Step(h, cap, Write(data)), past')
  {
    hide Subsequence;
    var all := h.queue + data;
    var gone := |all| - |KeepLast(all, cap)|;
    past' := past + all[..gone];
    assert past + h.queue + data == past + all;
    MoveAcross(past, all, gone);
    SubsequenceSkips(h.read, past, all[..gone]);
  }

  lemma StepAccounted(h: History, cap: nat, op: Op, past: seq<int16>) returns (past': seq<int16>)
    requires Accounted(h, past)
    ensures Accounted(Step(h, cap, op), past')
  {
    hide Subsequence, KeepLast;
    past' := past;
    match op
    case Write(data) =>
      past' := WriteAccounted(h, cap, data, past);
    case Read(len) =>
      var n := if h.shut then 0 else if len < |h.queue| then len else |h.queue|;
      past' := past + h.queue[..n];
      MoveAcross(past, h.queue, n);
      SubsequenceExtends(h.read, past, h.queue[..n]);
    case Close =>
  }

  /** Over any run, the samples read come out in the order they were written, and every sample
      still queued was written after all of them. */
  lemma {:induction false} ReadsAreSubsequence(h: History, cap: nat, ops: seq<Op>, past: seq<int16>)
    returns (past': seq<int16>)
    requires Accounted(h, past)
    ensures Accounted(Run(h, cap, ops), past')
    decreases |ops|
  {
    if ops == [] {
      past' := past;
    } else {
      past' := StepAccounted(h, cap, ops[0], past);
      past' := ReadsAreSubsequence(Step(h, cap, ops[0]), cap, ops[1..], past');
    }
  }

  /** Without overflow nothing is lost: what was read, then what is queued, is what was written. */
  lemma {:induction false} LosslessWithoutOverflow(h: History, cap: nat, ops: seq<Op>)
    requires h.written == h.read + h.queue && NeverOverflows(h, cap, ops)
    ensures var r := Run(h, cap, ops); r.written == r.read + r.queue
    decreases |ops|
  {
    if ops != [] {
      var h' := Step(h, cap, ops[0]);
      assert h'.written == h'.read + h'.queue by {
        match ops[0]
        case Write(data) => assert h.read + h.queue + data == h.read + (h.queue + data);
        case Read(len) =>
          var n := if h.shut then 0 else if len < |h.queue| then len else |h.queue|;
          assert h.read + h.queue == (h.read + h.queue[..n]) + h.queue[n..];
        case Close =>
      }
      LosslessWithoutOverflow(h', cap, ops[1..]);
    }
  }
}
