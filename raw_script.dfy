/** The raw-socket replay generator (`flow2pwn` in services/api/flow2pwn.py):
    a fixed pwntools header that connects to the flow's destination port, then
    one line per captured message, in capture order. A client message becomes
    `proc.write(b"...")` with its whole payload escaped; any other message
    becomes `proc.recvuntil(b"...")` with the escape of its last ten bytes,
    after the textual replacement of every backslash-`n` pair by
    backslash-backslash-`n`. */
module RawScript {
  import opened Common
  import opened Escaper

  /** Python's `str(n)` for a non-negative integer. */
  function Digits(n: nat): (r: string)
    ensures |r| > 0
    ensures forall i :: 0 <= i < |r| ==> '0' <= r[i] <= '9'
  {
    if n < 10 then [('0' as int + n) as char]
    else Digits(n / 10) + [('0' as int + n % 10) as char]
  }

  /** Python's `str(n)`, as the f-string `{port}` writes it. */
  function Decimal(n: int): (r: string)
    ensures |r| > 0
    ensures forall i :: 0 <= i < |r| ==> r[i] == '-' || '0' <= r[i] <= '9'
  {
    if n < 0 then "-" + Digits(-n) else Digits(n)
  }

  /** The number a run of decimal digits stands for, read left to right:
      each digit multiplies what was read so far by ten and adds itself. */
  function DigitsValue(t: string): int
    decreases |t|
  {
    if t == [] then 0
    else 10 * DigitsValue(t[..|t| - 1]) + (t[|t| - 1] as int - '0' as int)
  }

  /** Python's `int(s)` on what `str` writes: an optional '-', then digits. */
  function ReadDecimal(s: string): int {
    if s != [] && s[0] == '-' then -DigitsValue(s[1..]) else DigitsValue(s)
  }

  /** `Digits` writes `n` in canonical form: read back it is `n`, and it has
      no leading zero unless `n` is zero. */
  lemma {:induction false} DigitsRoundTrip(n: nat)
    ensures DigitsValue(Digits(n)) == n
    ensures Digits(n)[0] == '0' ==> n == 0
  {
    var t := Digits(n);
    var c := ('0' as int + n % 10) as char;
    if n < 10 {
      assert t[..0] == [];
    } else {
      var d := Digits(n / 10);
      DigitsRoundTrip(n / 10);
      assert t == d + [c] && t[..|t| - 1] == d;
      assert t[0] == d[0];
    }
  }

  /** `Decimal` is read back as the number it was written from. */
  lemma DecimalRoundTrip(n: int)
    ensures ReadDecimal(Decimal(n)) == n
    ensures Decimal(n)[0] == '-' <==> n < 0
    ensures n > 0 ==> Decimal(n)[0] != '0'
  {
    var s := Decimal(n);
    if n < 0 {
      var d := Digits(-n);
      DigitsRoundTrip(-n);
      assert s == ['-'] + d;
      assert s[0] == '-' && s[1..] == d;
    } else {
      DigitsRoundTrip(n);
    }
  }

  /** The fixed prelude, line by line: import pwntools, read the target host
      from TARGET_IP falling back to the first script argument, connect to the
      port. */
  function HeaderLines(port: int): seq<string> {
    ["from pwn import *",
     "import os, sys",
     "",
     "host = os.getenv(\"TARGET_IP\", sys.argv[1])",
     "proc = remote(host, " + Decimal(port) + ")"]
  }

  /** The text of the prelude's f-string: its five lines, each ending in a
      line break. */
  function Header(port: int): string {
    JoinLines(HeaderLines(port))
  }

  /** `data[-10:]`: the last ten bytes, or all of them when there are fewer. */
  function Last10(data: seq<byte>): (r: seq<byte>)
    ensures |r| == if |data| < 10 then |data| else 10
    ensures data == data[..|data| - |r|] + r
  {
    if |data| <= 10 then data else data[|data| - 10..]
  }

  /** Python's `t.replace("\\n", "\\\\n")`: scanning left to right, every
      backslash followed by `n` becomes backslash, backslash, `n`. */
  function ReplaceBackslashN(t: string): string
    decreases |t|
  {
    if |t| < 2 then t
    else if t[0] == '\\' && t[1] == 'n' then "\\\\n" + ReplaceBackslashN(t[2..])
    else [t[0]] + ReplaceBackslashN(t[1..])
  }

  /** The replacement only inserts: one character per backslash-`n` pair, so
      at most half as many again, and text without a backslash is left as
      it is. */
  lemma {:induction false} ReplaceBackslashNLength(t: string)
    ensures |t| <= |ReplaceBackslashN(t)| <= |t| + |t| / 2
    ensures '\\' !in t ==> ReplaceBackslashN(t) == t
    decreases |t|
  {
    if |t| >= 2 {
      if t[0] == '\\' && t[1] == 'n' {
        ReplaceBackslashNLength(t[2..]);
      } else {
        ReplaceBackslashNLength(t[1..]);
        if '\\' !in t {
          assert '\\' !in t[1..];
        }
      }
    }
  }

  /** The text inside `proc.recvuntil(b"...")` for a server payload. */
  function RecvPattern(data: seq<byte>): string {
    ReplaceBackslashN(Convert(Last10(data)))
  }

  /** The line a message contributes, without its line break. */
  function Line(m: Message): string {
    if IsClient(m) then "proc.write(b\"" + Convert(m.b64) + "\")"
    else "proc.recvuntil(b\"" + RecvPattern(m.b64) + "\")"
  }

  function Lines(ms: seq<Message>): (r: seq<string>)
    ensures |r| == |ms|
  {
    seq(|ms|, i requires 0 <= i < |ms| => Line(ms[i]))
  }

  /** Every line followed by a line break. */
  function JoinLines(ls: seq<string>): string {
    if ls == [] then [] else ls[0] + "\n" + JoinLines(ls[1..])
  }

  /** The text the source returns for `flow`. */
  function Script(flow: Flow): string {
    Header(flow.dstPort) + JoinLines(Lines(flow.messages))
  }

  /** `flow2pwn(flow)`: the script built line by line, as the source's loop
      does with `script +=`. */
  method Flow2Pwn(flow: Flow) returns (script: string)
    ensures script == Script(flow)
  {
    var port := flow.dstPort;
    var ms := flow.messages;
    script := Header(port);
    for i := 0 to |ms|
      invariant script == Header(port) + JoinLines(Lines(ms[..i]))
    {
      var data := ms[i].b64;
      var line;
      if ms[i].from == "c" {
        line := "proc.write(b\"" + Convert(data) + "\")";
      } else {
        var last10 := Last10(data);
        var pattern := ReplaceBackslashN(Convert(last10));
        line := "proc.recvuntil(b\"" + pattern + "\")";
      }
      ConcatAssoc(script, line, "\n");
      script := script + line + "\n";
      LinesSnoc(ms, i);
      ConcatAssoc(Header(port), JoinLines(Lines(ms[..i])), line + "\n");
    }
    assert ms[..|ms|] == ms;
  }

  /** Kept as a lemma so that the loop above sees associativity only for
      the three strings at hand. */
  lemma ConcatAssoc(a: string, b: string, c: string)
    ensures a + (b + c) == (a + b) + c
  {
  }

  lemma {:induction false} JoinLinesSnoc(ls: seq<string>, l: string)
    ensures JoinLines(ls + [l]) == JoinLines(ls) + (l + "\n")
  {
    if ls == [] {
      assert [] + [l] == [l];
      assert [l][1..] == [];
    } else {
      assert (ls + [l])[1..] == ls[1..] + [l];
      JoinLinesSnoc(ls[1..], l);
    }
  }

  lemma LinesSnoc(ms: seq<Message>, i: nat)
    requires i < |ms|
    ensures JoinLines(Lines(ms[..i + 1])) == JoinLines(Lines(ms[..i])) + (Line(ms[i]) + "\n")
  {
    assert Lines(ms[..i + 1]) == Lines(ms[..i]) + [Line(ms[i])];
    JoinLinesSnoc(Lines(ms[..i]), Line(ms[i]));
  }

  // ---------------------------------------------------------------------
  // Lines of the script

  predicate NoNewline(l: string) {
    forall i :: 0 <= i < |l| ==> l[i] != '\n'
  }

  /** The lines of `t`, the first one continuing `current`; a final line
      break does not open an empty line. */
  function SplitFrom(t: string, current: string): seq<string>
    decreases |t|
  {
    if t == [] then (if current == [] then [] else [current])
    else if t[0] == '\n' then [current] + SplitFrom(t[1..], [])
    else SplitFrom(t[1..], current + [t[0]])
  }

  /** The lines of a text, each without its terminating line break. */
  function SplitLines(t: string): seq<string> {
    SplitFrom(t, [])
  }

  lemma {:induction false} SplitFromLine(l: string, rest: string, current: string)
    requires NoNewline(l)
    ensures SplitFrom(l + "\n" + rest, current) == [current + l] + SplitFrom(rest, [])
    decreases |l|
  {
    var t := l + "\n" + rest;
    if l == [] {
      assert t[1..] == rest;
      assert current + l == current;
    } else {
      assert t[1..] == l[1..] + "\n" + rest;
      SplitFromLine(l[1..], rest, current + [l[0]]);
      assert current + [l[0]] + l[1..] == current + l;
    }
  }

  /** Splitting joined lines gives the lines back, when none holds a break. */
  lemma {:induction false} SplitJoinLines(ls: seq<string>)
    requires forall i :: 0 <= i < |ls| ==> NoNewline(ls[i])
    ensures SplitLines(JoinLines(ls)) == ls
  {
    if ls != [] {
      SplitJoinLines(ls[1..]);
      SplitFromLine(ls[0], JoinLines(ls[1..]), []);
      assert [] + ls[0] == ls[0];
    }
  }

  lemma {:induction false} JoinLinesAppend(a: seq<string>, b: seq<string>)
    ensures JoinLines(a + b) == JoinLines(a) + JoinLines(b)
  {
    if a == [] {
      assert a + b == b;
    } else {
      assert (a + b)[1..] == a[1..] + b;
      JoinLinesAppend(a[1..], b);
    }
  }

  lemma LineNoNewline(m: Message)
    ensures NoNewline(Line(m))
  {
    if IsClient(m) {
      PrintableNoNewline("proc.write(b\"", Convert(m.b64));
    } else {
      ReplacePrintable(Convert(Last10(m.b64)));
      PrintableNoNewline("proc.recvuntil(b\"", RecvPattern(m.b64));
    }
  }

  lemma PrintableNoNewline(pre: string, inner: string)
    requires AllPrintable(pre) && AllPrintable(inner)
    ensures NoNewline(pre + inner + "\")")
  {
  }

  lemma {:induction false} ReplacePrintable(t: string)
    requires AllPrintable(t)
    ensures AllPrintable(ReplaceBackslashN(t))
    decreases |t|
  {
    if |t| >= 2 {
      if t[0] == '\\' && t[1] == 'n' {
        ReplacePrintable(t[2..]);
      } else {
        ReplacePrintable(t[1..]);
      }
    }
  }

  lemma HeaderNoNewline(port: int)
    ensures forall i :: 0 <= i < 5 ==> NoNewline(HeaderLines(port)[i])
  {
    var ls := HeaderLines(port);
    assert NoNewline(ls[0]) && NoNewline(ls[1]) && NoNewline(ls[2]) && NoNewline(ls[3]);
    var d := Decimal(port);
    assert ls[4] == "proc = remote(host, " + d + ")";
    assert forall i :: 0 <= i < |d| ==> d[i] != '\n';
  }

  /** The script is the header's five lines followed by exactly one line per
      message, in capture order; no message is skipped. */
  lemma ScriptLines(flow: Flow)
    ensures SplitLines(Script(flow)) == HeaderLines(flow.dstPort) + Lines(flow.messages)
  {
    var h, ls := HeaderLines(flow.dstPort), Lines(flow.messages);
    JoinLinesAppend(h, ls);
    HeaderNoNewline(flow.dstPort);
    LinesNoNewline(flow.messages);
    SplitJoinAppend(h, ls);
  }

  lemma LinesNoNewline(ms: seq<Message>)
    ensures forall i :: 0 <= i < |ms| ==> NoNewline(Lines(ms)[i])
  {
    forall i | 0 <= i < |ms| ensures NoNewline(Lines(ms)[i]) {
      LineNoNewline(ms[i]);
    }
  }

  lemma SplitJoinAppend(a: seq<string>, b: seq<string>)
    requires forall i :: 0 <= i < |a| ==> NoNewline(a[i])
    requires forall i :: 0 <= i < |b| ==> NoNewline(b[i])
    ensures SplitLines(JoinLines(a + b)) == a + b
  {
    forall i | 0 <= i < |a + b| ensures NoNewline((a + b)[i]) {
      if i < |a| {
        assert (a + b)[i] == a[i];
      } else {
        assert (a + b)[i] == b[i - |a|];
      }
    }
    SplitJoinLines(a + b);
  }

  /** The script starts with the header, whose connect line carries the port. */
  lemma ScriptStartsWithHeader(flow: Flow)
    ensures StartsWith(Script(flow), Header(flow.dstPort))
    ensures |SplitLines(Script(flow))| >= 5 &&
      SplitLines(Script(flow))[4] == "proc = remote(host, " + Decimal(flow.dstPort) + ")"
    ensures var l := SplitLines(Script(flow))[4];
      |l| > 21 && ReadDecimal(l[20..|l| - 1]) == flow.dstPort
  {
    var h := Header(flow.dstPort);
    assert Script(flow)[..|h|] == h;
    ScriptLines(flow);
    var l := SplitLines(Script(flow))[4];
    assert l[20..|l| - 1] == Decimal(flow.dstPort);
    DecimalRoundTrip(flow.dstPort);
  }

  // ---------------------------------------------------------------------
  // What each line means

  /** A client line writes exactly the message's payload: the text between
      `proc.write(b"` and `")` is a well-formed literal that denotes `m.b64`. */
  lemma ClientLine(m: Message)
    requires IsClient(m)
    ensures var l := Line(m);
      |l| >= 15 && l[..13] == "proc.write(b\"" && l[|l| - 2..] == "\")" &&
      SafeInQuotes(l[13..|l| - 2]) && LiteralBytes(l[13..|l| - 2]) == Some(m.b64)
  {
    var l := Line(m);
    var inner := Convert(m.b64);
    assert l[13..|l| - 2] == inner;
    ConvertRoundTrip(m.b64);
    ConvertSafeInQuotes(m.b64);
  }

  /** The escape of `s` in which a byte `n` that follows a backslash byte
      (`afterBackslash` for the first one) is written `\n`. */
  function EscapeAfter(s: seq<byte>, afterBackslash: bool): string
    decreases |s|
  {
    if s == [] then []
    else
      (if afterBackslash && s[0] == 'n' as int then "\\n" else Escape(s[0]))
        + EscapeAfter(s[1..], s[0] == '\\' as int)
  }

  lemma ReplaceStep(c: char, t: string)
    requires c != '\\'
    ensures ReplaceBackslashN([c] + t) == [c] + ReplaceBackslashN(t)
  {
    assert ([c] + t)[1..] == t;
  }

  lemma ReplaceStepBackslash(c: char, t: string)
    requires c != 'n'
    ensures ReplaceBackslashN(['\\', c] + t) == ['\\'] + ReplaceBackslashN([c] + t)
  {
    assert (['\\', c] + t)[1..] == [c] + t;
  }

  lemma ReplaceAfterHexEscape(h: char, l: char, t: string)
    requires h != '\\' && l != '\\'
    ensures ReplaceBackslashN(['\\', 'x', h, l] + t) == ['\\', 'x', h, l] + ReplaceBackslashN(t)
  {
    var digits := [h, l] + t;
    assert ['\\', 'x', h, l] + t == ['\\', 'x'] + digits;
    ReplaceAfterBackslashX(digits);
    ReplaceAfterTwo(h, l, t);
    assert ['\\', 'x'] + ([h, l] + ReplaceBackslashN(t)) == ['\\', 'x', h, l] + ReplaceBackslashN(t);
  }

  lemma ReplaceAfterBackslashX(u: string)
    ensures ReplaceBackslashN(['\\', 'x'] + u) == ['\\', 'x'] + ReplaceBackslashN(u)
  {
    var r := ReplaceBackslashN(u);
    ReplaceStepBackslash('x', u);
    ReplaceStep('x', u);
    assert ['\\'] + (['x'] + r) == ['\\', 'x'] + r;
  }

  lemma ReplaceAfterTwo(h: char, l: char, t: string)
    requires h != '\\' && l != '\\'
    ensures ReplaceBackslashN([h, l] + t) == [h, l] + ReplaceBackslashN(t)
  {
    assert [h, l] + t == [h] + ([l] + t);
    ReplaceStep(h, [l] + t);
    ReplaceStep(l, t);
    assert [h] + ([l] + ReplaceBackslashN(t)) == [h, l] + ReplaceBackslashN(t);
  }

  /** The escape of any byte other than a backslash passes the replacement
      unchanged, whatever follows it. */
  lemma ReplaceAfterEscape(b: byte, t: string)
    requires b != '\\' as int
    ensures ReplaceBackslashN(Escape(b) + t) == Escape(b) + ReplaceBackslashN(t)
  {
    if !IsPrintableByte(b) {
      assert Escape(b) == ['\\', 'x', HexDigit(b / 16), HexDigit(b % 16)];
      ReplaceAfterHexEscape(HexDigit(b / 16), HexDigit(b % 16), t);
    } else if b == '"' as int {
      assert Escape(b) == ['\\', '"'];
      ReplaceStepBackslash('"', t);
      ReplaceStep('"', t);
    } else {
      assert Escape(b) == [b as char];
      ReplaceStep(b as char, t);
    }
  }

  /** The replacement only rewrites an escaped backslash followed by `n`. */
  lemma {:induction false} ReplaceConvert(s: seq<byte>)
    ensures ReplaceBackslashN(Convert(s)) == EscapeAfter(s, false)
    decreases |s|, 0
  {
    if s != [] {
      if s[0] == '\\' as int {
        ReplaceConvertAfterBackslash(s[1..]);
        ReplaceStepBackslash('\\', Convert(s[1..]));
        assert Convert(s) == ['\\', '\\'] + Convert(s[1..]);
      } else {
        ReplaceAfterEscape(s[0], Convert(s[1..]));
        ReplaceConvert(s[1..]);
      }
    }
  }

  lemma {:induction false} ReplaceConvertAfterBackslash(s: seq<byte>)
    ensures ReplaceBackslashN(['\\'] + Convert(s)) == ['\\'] + EscapeAfter(s, true)
    decreases |s|, 2
  {
    if s == [] {
    } else if s[0] == 'n' as int {
      ReplaceConvertAfterBackslashN(s);
    } else {
      ReplaceConvertAfterBackslashOther(s);
    }
  }

  lemma {:induction false} ReplaceConvertAfterBackslashN(s: seq<byte>)
    requires s != [] && s[0] == 'n' as int
    ensures ReplaceBackslashN(['\\'] + Convert(s)) == ['\\'] + EscapeAfter(s, true)
    decreases |s|, 1
  {
    ReplaceBackslashThenN(s);
    ReplaceConvert(s[1..]);
    EscapeAfterN(s);
    BackslashThenEscapedN(EscapeAfter(s[1..], false));
  }

  lemma BackslashThenEscapedN(x: string)
    ensures ['\\'] + ("\\n" + x) == "\\\\n" + x
  {
  }

  lemma ReplaceBackslashThenN(s: seq<byte>)
    requires s != [] && s[0] == 'n' as int
    ensures ReplaceBackslashN(['\\'] + Convert(s)) == "\\\\n" + ReplaceBackslashN(Convert(s[1..]))
  {
    var rest := Convert(s[1..]);
    ConvertN(s);
    assert ['\\'] + Convert(s) == ['\\', 'n'] + rest;
    ReplaceBackslashNHead(rest);
  }

  lemma EscapeAfterN(s: seq<byte>)
    requires s != [] && s[0] == 'n' as int
    ensures EscapeAfter(s, true) == "\\n" + EscapeAfter(s[1..], false)
  {
  }

  lemma ConvertN(s: seq<byte>)
    requires s != [] && s[0] == 'n' as int
    ensures Convert(s) == ['n'] + Convert(s[1..])
  {
    assert Escape(s[0]) == ['n'];
  }

  lemma ReplaceBackslashNHead(t: string)
    ensures ReplaceBackslashN(['\\', 'n'] + t) == "\\\\n" + ReplaceBackslashN(t)
  {
    assert (['\\', 'n'] + t)[2..] == t;
  }

  lemma {:induction false} ReplaceConvertAfterBackslashOther(s: seq<byte>)
    requires s != [] && s[0] != 'n' as int
    ensures ReplaceBackslashN(['\\'] + Convert(s)) == ['\\'] + EscapeAfter(s, true)
    decreases |s|, 1
  {
    ReplaceBackslashThenOther(s);
    ReplaceConvert(s);
    EscapeAfterOther(s);
  }

  lemma ReplaceBackslashThenOther(s: seq<byte>)
    requires s != [] && s[0] != 'n' as int
    ensures ReplaceBackslashN(['\\'] + Convert(s)) == ['\\'] + ReplaceBackslashN(Convert(s))
  {
    var x := Convert(s);
    ConvertHead(s);
    assert x == [x[0]] + x[1..];
    assert ['\\'] + x == ['\\', x[0]] + x[1..];
    ReplaceStepBackslash(x[0], x[1..]);
  }

  lemma EscapeAfterOther(s: seq<byte>)
    requires s != [] && s[0] != 'n' as int
    ensures EscapeAfter(s, true) == EscapeAfter(s, false)
  {
  }

  /** The escape of a byte other than `n` does not start with `n`. */
  lemma ConvertHead(s: seq<byte>)
    requires s != [] && s[0] != 'n' as int
    ensures |Convert(s)| > 0 && Convert(s)[0] != 'n'
  {
    var e := Escape(s[0]);
    assert Convert(s) == e + Convert(s[1..]);
    assert Convert(s)[0] == e[0];
  }

  /** `s` with every byte `n` that directly follows a backslash byte turned
      into a line feed (0x0a). */
  function NewlineAfterBackslash(s: seq<byte>): (r: seq<byte>)
    ensures |r| == |s|
  {
    seq(|s|, i requires 0 <= i < |s| =>
      if i > 0 && s[i - 1] == '\\' as int && s[i] == 'n' as int then 0x0a else s[i])
  }

  lemma {:induction false} LiteralBytesEscapeAfter(s: seq<byte>, afterBackslash: bool)
    ensures LiteralBytes(EscapeAfter(s, afterBackslash)) ==
      Some(if s == [] then [] else
        [if afterBackslash && s[0] == 'n' as int then 0x0a else s[0]]
          + NewlineAfterBackslash(s)[1..])
    decreases |s|
  {
    if s != [] {
      var rest := EscapeAfter(s[1..], s[0] == '\\' as int);
      LiteralBytesEscapeAfter(s[1..], s[0] == '\\' as int);
      NewlineAfterBackslashTail(s);
      if afterBackslash && s[0] == 'n' as int {
        assert EscapeAfter(s, afterBackslash) == "\\n" + rest;
        assert ("\\n" + rest)[2..] == rest;
      } else {
        assert EscapeAfter(s, afterBackslash) == Escape(s[0]) + rest;
        LiteralBytesEscape(s[0], rest);
      }
    }
  }

  lemma NewlineAfterBackslashTail(s: seq<byte>)
    requires s != []
    ensures NewlineAfterBackslash(s)[1..] ==
      if |s| == 1 then [] else
        [if s[0] == '\\' as int && s[1] == 'n' as int then 0x0a else s[1]]
          + NewlineAfterBackslash(s[1..])[1..]
  {
    var r, t := NewlineAfterBackslash(s), NewlineAfterBackslash(s[1..]);
    if |s| > 1 {
      assert forall i :: 1 <= i < |t| ==> t[i] == r[i + 1];
    }
  }

  /** What the generated `recvuntil` actually waits for: the last ten bytes
      of the server payload, except that a byte `n` right after a backslash
      byte is matched as a line feed. */
  lemma RecvPatternBytes(data: seq<byte>)
    ensures LiteralBytes(RecvPattern(data)) == Some(NewlineAfterBackslash(Last10(data)))
    ensures SafeInQuotes(RecvPattern(data))
  {
    var s := Last10(data);
    ReplaceConvert(s);
    LiteralBytesEscapeAfter(s, false);
    if s != [] {
      assert [s[0]] + NewlineAfterBackslash(s)[1..] == NewlineAfterBackslash(s);
    }
    EscapeAfterSafe(s, false);
  }

  lemma {:induction false} EscapeAfterSafe(s: seq<byte>, afterBackslash: bool)
    ensures SafeInQuotes(EscapeAfter(s, afterBackslash))
    decreases |s|
  {
    if s != [] {
      var rest := EscapeAfter(s[1..], s[0] == '\\' as int);
      EscapeAfterSafe(s[1..], s[0] == '\\' as int);
      if afterBackslash && s[0] == 'n' as int {
        assert ("\\n" + rest)[2..] == rest;
      } else {
        SafeInQuotesEscape(s[0], rest);
      }
    }
  }

  /** The pattern matches the server's own last bytes exactly when they hold
      no backslash byte directly followed by `n`. */
  lemma RecvPatternExact(data: seq<byte>)
    ensures var s := Last10(data);
      LiteralBytes(RecvPattern(data)) == Some(s) <==>
      forall i :: 0 < i < |s| ==> !(s[i - 1] == '\\' as int && s[i] == 'n' as int)
  {
    RecvPatternBytes(data);
    NewlineAfterBackslashUnchanged(Last10(data));
  }

  lemma NewlineAfterBackslashUnchanged(s: seq<byte>)
    ensures NewlineAfterBackslash(s) == s <==>
      forall i :: 0 < i < |s| ==> !(s[i - 1] == '\\' as int && s[i] == 'n' as int)
  {
    if forall i :: 0 < i < |s| ==> !(s[i - 1] == '\\' as int && s[i] == 'n' as int) {
      assert NewlineAfterBackslash(s) == s;
    } else {
      var i :| 0 < i < |s| && s[i - 1] == '\\' as int && s[i] == 'n' as int;
      assert NewlineAfterBackslash(s)[i] != s[i];
    }
  }

  /** A server line waits for the pattern above. */
  lemma ServerLine(m: Message)
    requires !IsClient(m)
    ensures var l := Line(m);
      |l| >= 19 && l[..17] == "proc.recvuntil(b\"" && l[|l| - 2..] == "\")" &&
      SafeInQuotes(l[17..|l| - 2]) &&
      LiteralBytes(l[17..|l| - 2]) == Some(NewlineAfterBackslash(Last10(m.b64)))
  {
    var l := Line(m);
    assert l[17..|l| - 2] == RecvPattern(m.b64);
    RecvPatternBytes(m.b64);
  }

  /** Any server payload ending in the two bytes backslash, `n`: the pattern
      denotes bytes that end in backslash and line feed instead, so it is not
      the payload's last bytes and the replay waits for something the server
      did not send. */
  lemma RecvPatternBackslashN(data: seq<byte>)
    requires |data| >= 2 && data[|data| - 2] == 0x5c && data[|data| - 1] == 0x6e
    ensures LiteralBytes(RecvPattern(data)).Some?
    ensures var p := LiteralBytes(RecvPattern(data)).value;
      |p| == |Last10(data)| && p[|p| - 2..] == [0x5c, 0x0a] && p != Last10(data)
  {
    var s := Last10(data);
    RecvPatternBytes(data);
    var p := LiteralBytes(RecvPattern(data)).value;
    assert p == NewlineAfterBackslash(s);
    Last10BackslashN(data);
    NewlineAfterBackslashEnd(s);
  }

  lemma Last10BackslashN(data: seq<byte>)
    requires |data| >= 2 && data[|data| - 2] == 0x5c && data[|data| - 1] == 0x6e
    ensures var s := Last10(data); |s| >= 2 && s[|s| - 2] == 0x5c && s[|s| - 1] == 0x6e
  {
  }

  lemma NewlineAfterBackslashEnd(s: seq<byte>)
    requires |s| >= 2 && s[|s| - 2] == 0x5c && s[|s| - 1] == 0x6e
    ensures var p := NewlineAfterBackslash(s); p[|p| - 2..] == [0x5c, 0x0a] && p != s
  {
    var p := NewlineAfterBackslash(s);
    assert p[|p| - 2] == 0x5c && p[|p| - 1] == 0x0a;
    assert p[|p| - 2..] == [0x5c, 0x0a];
  }

  /** The shortest such payload: the pattern is `\\\n`. */
  lemma RecvPatternBackslashNExample()
    ensures RecvPattern([0x5c, 0x6e]) == "\\\\\\n"
    ensures LiteralBytes(RecvPattern([0x5c, 0x6e])) == Some([0x5c, 0x0a])
  {
    var s: seq<byte> := [0x5c, 0x6e];
    assert Convert(s) == "\\\\n" by {
      assert Convert(s[1..][1..]) == [];
      assert Convert(s[1..]) == "n";
    }
    var t := "\\\\n";
    assert ReplaceBackslashN(t[1..]) == "\\\\n" by {
      assert t[1..][2..] == [];
    }
    RecvPatternBytes(s);
    assert NewlineAfterBackslash(s) == [0x5c, 0x0a];
  }

  /** A short server payload `PONG\n` is waited for as a whole. */
  lemma RecvPatternPong(data: seq<byte>)
    requires data == [0x50, 0x4f, 0x4e, 0x47, 0x0a]
    ensures RecvPattern(data) == "PONG\\x0a"
  {
    assert Last10(data) == data;
    ReplaceConvert(data);
    EscapeAfterNoBackslash(data);
    ConvertPong(data);
  }

  /** Without a backslash byte, no `n` follows one, and the escape is plain. */
  lemma {:induction false} EscapeAfterNoBackslash(s: seq<byte>)
    requires '\\' as int !in s
    ensures EscapeAfter(s, false) == Convert(s)
  {
    if s != [] {
      assert '\\' as int !in s[1..] by {
        assert forall b :: b in s[1..] ==> b in s;
      }
      EscapeAfterNoBackslash(s[1..]);
    }
  }

  lemma ConvertPong(s: seq<byte>)
    requires s == [0x50, 0x4f, 0x4e, 0x47, 0x0a]
    ensures Convert(s) == "PONG\\x0a"
  {
    EscapeLineFeed();
    assert s[4..][1..] == [];
    assert Convert(s[4..]) == "\\x0a";
    assert s[3..][1..] == s[4..];
    assert Convert(s[3..]) == "G\\x0a";
    assert s[2..][1..] == s[3..];
    assert Convert(s[2..]) == "NG\\x0a";
    assert s[1..][1..] == s[2..];
    assert Convert(s[1..]) == "ONG\\x0a";
  }

  lemma EscapeLineFeed()
    ensures Escape(0x0a) == "\\x0a"
  {
  }
}
