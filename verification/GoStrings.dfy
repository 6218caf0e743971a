/** The string functions the modem code is written with, on strings of bytes. White space and
    letter case are those of ASCII. */
module GoStrings {
  import opened Basics

  predicate IsSpace(c: char) {
    c == ' ' || c == '\t' || c == '\n' || c == '\r' || c == '\U{0B}' || c == '\U{0C}'
  }

  predicate Blank(s: string) {
    forall i :: 0 <= i < |s| ==> IsSpace(s[i])
  }

  /** Nothing for TrimSpace to remove, and something there. */
  predicate Trimmed(s: string) {
    s != "" && !IsSpace(s[0]) && !IsSpace(s[|s| - 1])
  }

  function TrimLeft(s: string): string {
    if s != "" && IsSpace(s[0]) then TrimLeft(s[1..]) else s
  }

  function TrimRight(s: string): string {
    if s != "" && IsSpace(s[|s| - 1]) then TrimRight(s[..|s| - 1]) else s
  }

  function TrimSpace(s: string): string {
    TrimRight(TrimLeft(s))
  }

  lemma {:induction false} TrimLeftSkips(b: string, s: string)
    requires Blank(b)
    ensures TrimLeft(b + s) == TrimLeft(s)
  {
    if b == "" {
      assert b + s == s;
    } else {
      assert (b + s)[1..] == b[1..] + s;
      TrimLeftSkips(b[1..], s);
    }
  }

  /** Trimming is blind to leading white space and leaves a trimmed string alone. */
  lemma TrimPadded(b: string, s: string)
    requires Blank(b)
    ensures TrimSpace(b) == ""
    ensures Trimmed(s) ==> TrimSpace(b + s) == s
  {
    TrimLeftSkips(b, "");
    assert b + "" == b;
    TrimLeftSkips(b, s);
  }

  lemma {:induction false} TrimEmptyIffBlank(s: string)
    ensures TrimSpace(s) == "" <==> Blank(s)
  {
    if s != "" && IsSpace(s[0]) {
      TrimEmptyIffBlank(s[1..]);
      assert TrimSpace(s) == TrimSpace(s[1..]);
    } else if s != "" {
      TrimRightKeepsFirst(s);
    }
  }

  lemma {:induction false} TrimRightKeepsFirst(s: string)
    requires s != "" && !IsSpace(s[0])
    ensures TrimRight(s) != "" && TrimRight(s)[0] == s[0]
    decreases |s|
  {
    if IsSpace(s[|s| - 1]) {
      TrimRightKeepsFirst(s[..|s| - 1]);
    }
  }

  /** White space is blank, tab, line feed, vertical tab, form feed and carriage return. */
  lemma WhiteSpace(c: char)
    ensures Blank(" \t\n\U{B}\U{C}\r") && (IsSpace(c) ==> c in " \t\n\U{B}\U{C}\r")
  {
    var all := " \t\n\U{B}\U{C}\r";
    assert all[0] == ' ' && all[1] == '\t' && all[2] == '\n' && all[3] == '\U{B}' && all[4] == '\U{C}' && all[5] == '\r';
  }

  lemma {:induction false} TrimRightSkips(s: string, b: string)
    requires Blank(b)
    ensures TrimRight(s + b) == TrimRight(s)
    decreases |b|
  {
    if b == "" {
      assert s + b == s;
    } else {
      assert (s + b)[..|s + b| - 1] == s + b[..|b| - 1];
      TrimRightSkips(s, b[..|b| - 1]);
    }
  }

  /** Trimming takes exactly the white space around a trimmed string. */
  lemma TrimBoth(a: string, s: string, b: string)
    requires Blank(a) && Trimmed(s) && Blank(b)
    ensures TrimSpace(a + s + b) == s
  {
    assert a + s + b == a + (s + b);
    TrimLeftSkips(a, s + b);
    assert (s + b)[0] == s[0];
    TrimRightSkips(s, b);
  }

  predicate HasPrefix(s: string, p: string) {
    p <= s
  }

  predicate Contains(s: string, sub: string) {
    exists i :: 0 <= i <= |s| && sub <= s[i..]
  }

  function UpperChar(c: char): char {
    if 'a' <= c <= 'z' then 'A' + (c - 'a') else c
  }

  function ToUpper(s: string): (r: string)
    ensures |r| == |s|
  {
    seq(|s|, i requires 0 <= i < |s| => UpperChar(s[i]))
  }

  lemma {:induction false} TrimRightKeepsPrefix(s: string, p: string)
    requires HasPrefix(s, p) && Trimmed(p)
    ensures HasPrefix(TrimRight(s), p)
    decreases |s|
  {
    if IsSpace(s[|s| - 1]) {
      assert |s| > |p|;
      TrimRightKeepsPrefix(s[..|s| - 1], p);
    }
  }

  lemma UpperKeepsPrefix(t: string, p: string)
    requires HasPrefix(t, p) && (forall c :: c in p ==> UpperChar(c) == c)
    ensures HasPrefix(ToUpper(t), p)
  {
    assert forall i :: 0 <= i < |p| ==> p[i] in p && t[i] == t[..|p|][i];
    assert ToUpper(t)[..|p|] == p;
  }

  lemma {:induction false} TrimRightPrefix(s: string)
    ensures TrimRight(s) <= s
    decreases |s|
  {
    if s != "" && IsSpace(s[|s| - 1]) {
      TrimRightPrefix(s[..|s| - 1]);
    }
  }

  lemma {:induction false} TrimLeftIs(s: string) returns (i: nat)
    ensures i <= |s| && Blank(s[..i]) && TrimLeft(s) == s[i..]
  {
    if s != "" && IsSpace(s[0]) {
      var j := TrimLeftIs(s[1..]);
      i := j + 1;
      assert s[..i] == [s[0]] + s[1..][..j] && s[1..][j..] == s[i..];
    } else {
      i := 0;
      assert s[0..] == s;
    }
  }

  /** After white space, s goes on with word in capital or small letters. */
  ghost predicate Spelled(s: string, word: string) {
    exists i :: 0 <= i && i + |word| <= |s| && Blank(s[..i]) && ToUpper(s[i..i + |word|]) == word
  }

  lemma PrefixIsSpelled(s: string, word: string)
    requires HasPrefix(s, word) && ToUpper(word) == word
    ensures Spelled(s, word)
  {
    assert s[..0] == "" && s[0..0 + |word|] == word;
  }

  lemma SpelledIff(s: string, word: string)
    requires Trimmed(word)
    ensures HasPrefix(ToUpper(TrimSpace(s)), word) <==> Spelled(s, word)
  {
    if Spelled(s, word) {
      var i :| 0 <= i && i + |word| <= |s| && Blank(s[..i]) && ToUpper(s[i..i + |word|]) == word;
      SpelledIsPrefix(s[..i], s[i..], word);
      assert s == s[..i] + s[i..] && s[i..][..|word|] == s[i..i + |word|];
    }
    if HasPrefix(ToUpper(TrimSpace(s)), word) {
      PrefixWasSpelled(s, word);
    }
  }

  lemma SpelledIsPrefix(b: string, tail: string, word: string)
    requires Blank(b) && Trimmed(word) && |word| <= |tail| && ToUpper(tail[..|word|]) == word
    ensures HasPrefix(ToUpper(TrimSpace(b + tail)), word)
  {
    var n, p := |word|, tail[..|word|];
    assert UpperChar(p[0]) == word[0] && UpperChar(p[n - 1]) == word[n - 1];
    TrimLeftSkips(b, tail);
    assert TrimLeft(tail) == tail;
    TrimRightKeepsPrefix(tail, p);
    UpperTakes(TrimRight(tail), n);
    assert TrimRight(tail)[..n] == p;
  }

  lemma PrefixWasSpelled(s: string, word: string)
    requires HasPrefix(ToUpper(TrimSpace(s)), word)
    ensures Spelled(s, word)
  {
    var n, t := |word|, TrimSpace(s);
    var i := TrimLeftIs(s);
    TrimRightPrefix(TrimLeft(s));
    UpperTakes(t, n);
    hide TrimSpace, ToUpper;
    assert t[..n] == s[i..][..n] == s[i..i + n];
  }

  lemma UpperTakes(s: string, n: nat)
    requires n <= |s|
    ensures ToUpper(s)[..n] == ToUpper(s[..n])
  {
  }

  lemma UpperAlphabet()
    ensures ToUpper("abcdefghijklmnopqrstuvwxyz+=:0") == "ABCDEFGHIJKLMNOPQRSTUVWXYZ+=:0"
  {
  }

  // ----- Split and Join -----

  function Split(s: string, sep: char): (r: seq<string>)
    ensures r != []
  {
    if s == "" then [""]
    else
      var rest := Split(s[1..], sep);
      if s[0] == sep then [""] + rest else [[s[0]] + rest[0]] + rest[1..]
  }

  function Join(parts: seq<string>, sep: char): string {
    if parts == [] then ""
    else if |parts| == 1 then parts[0]
    else parts[0] + [sep] + Join(parts[1..], sep)
  }

  lemma {:induction false} SplitWhole(s: string, sep: char)
    requires sep !in s
    ensures Split(s, sep) == [s]
  {
    if s != "" {
      assert s == [s[0]] + s[1..];
      SplitWhole(s[1..], sep);
    }
  }

  lemma {:induction false} SplitFirst(a: string, rest: string, sep: char)
    requires sep !in a
    ensures Split(a + [sep] + rest, sep) == [a] + Split(rest, sep)
  {
    var s := a + [sep] + rest;
    if a == "" {
      assert s[1..] == rest;
    } else {
      assert s[1..] == a[1..] + [sep] + rest;
      assert a == [a[0]] + a[1..];
      SplitFirst(a[1..], rest, sep);
    }
  }

  /** Splitting undoes joining when no part holds the separator. */
  lemma {:induction false} SplitJoin(parts: seq<string>, sep: char)
    requires parts != [] && forall p :: p in parts ==> sep !in p
    ensures Split(Join(parts, sep), sep) == parts
  {
    if |parts| == 1 {
      SplitWhole(parts[0], sep);
    } else {
      SplitJoin(parts[1..], sep);
      SplitFirst(parts[0], Join(parts[1..], sep), sep);
    }
  }

  // ----- Decimal numbers -----

  predicate IsDigit(c: char) {
    '0' <= c <= '9'
  }

  function DigitValue(c: char): nat
    requires IsDigit(c)
  {
    c as int - '0' as int
  }

  predicate AllDigits(s: string) {
    forall i :: 0 <= i < |s| ==> IsDigit(s[i])
  }

  function DecimalValue(s: string): nat
    requires AllDigits(s)
  {
    if s == "" then 0 else 10 * DecimalValue(s[..|s| - 1]) + DigitValue(s[|s| - 1])
  }

  /** strconv.Atoi: an optional sign, at least one digit, and a value that fits in an int64. */
  function Atoi(s: string): Option<int> {
    var digits := if s != "" && (s[0] == '+' || s[0] == '-') then s[1..] else s;
    if digits == "" || !AllDigits(digits) then None
    else
      var m: int := DecimalValue(digits);
      var v := if s[0] == '-' then -m else m;
      if MIN_INT64 <= v <= MAX_INT64 then Some(v) else None
  }

  function DigitChar(d: nat): char
    requires d < 10
  {
    ('0' as int + d) as char
  }

  /** fmt's %d on a non-negative number. */
  function Decimal(n: nat): string {
    if n < 10 then [DigitChar(n)] else Decimal(n / 10) + [DigitChar(n % 10)]
  }

  lemma {:induction false} DecimalDigits(n: nat)
    ensures Decimal(n) != ""
    ensures forall i :: 0 <= i < |Decimal(n)| ==> IsDigit(Decimal(n)[i])
    ensures DecimalValue(Decimal(n)) == n
  {
    if n >= 10 {
      DecimalDigits(n / 10);
      var d := Decimal(n);
      assert d[..|d| - 1] == Decimal(n / 10);
    } else {
      assert Decimal(n)[..0] == "";
    }
  }

  lemma AtoiDecimal(n: nat)
    requires n <= MAX_INT64
    ensures Atoi(Decimal(n)) == Some(n)
  {
    DecimalDigits(n);
    assert IsDigit(Decimal(n)[0]);
  }

  lemma AtoiOfDigits(sign: string, n: nat)
    requires sign == "" || sign == "+" || sign == "-"
    ensures var m: int := n;
      var v := if sign == "-" then -m else m;
      Atoi(sign + Decimal(n)) == if -0x8000_0000_0000_0000 <= v <= 0x7FFF_FFFF_FFFF_FFFF then Some(v) else None
  {
    DecimalDigits(n);
    var d := Decimal(n);
    hide Decimal, DecimalValue;
    var s := sign + d;
    assert IsDigit(d[0]);
    if sign == "" {
      assert s == d;
    } else {
      assert s[0] == sign[0] && s[1..] == d;
    }
  }

  /** Anything but digits after the sign is refused, and so is nothing. */
  lemma AtoiRefuses(s: string, i: nat)
    requires i < |s| && !IsDigit(s[i]) && (i > 0 || (s[0] != '+' && s[0] != '-'))
    ensures Atoi(s) == None && Atoi("") == None && Atoi("+") == None && Atoi("-") == None
  {
    var digits := if s != "" && (s[0] == '+' || s[0] == '-') then s[1..] else s;
    assert !IsDigit(digits[|digits| - |s| + i]);
    assert !AllDigits(digits);
    assert "+"[1..] == "" && "-"[1..] == "";
  }
}
