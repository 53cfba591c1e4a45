/** The per-byte escaper of the raw-socket generator (`escape` and `convert` in
    services/api/flow2pwn.py): it turns arbitrary bytes into text that can stand
    between the quotes of a Python `b"..."` literal.

    The partner of the escaper is `LiteralBytes`, the decoding a Python bytes
    literal performs on the text between its quotes; the round trip
    `LiteralBytes(Convert(s)) == Some(s)` is the escaper's correctness. */
module Escaper {
  import opened Common

  /** The source's `0x20 <= char < 0x7f` test. */
  predicate IsPrintableByte(b: byte) {
    0x20 <= b < 0x7f
  }

  predicate IsPrintableChar(c: char) {
    ' ' <= c <= '~'
  }

  predicate AllPrintable(t: string) {
    forall i :: 0 <= i < |t| ==> IsPrintableChar(t[i])
  }

  /** A lower-case hexadecimal digit, as `{char:02x}` writes it. */
  function HexDigit(n: int): (c: char)
    requires 0 <= n < 16
    ensures IsPrintableChar(c) && c != '\\' && c != '"' && c != 'n' && c != 'x'
    ensures IsLowerHexChar(c) && IsHexChar(c) && HexValue(c) == n
  {
    if n < 10 then ('0' as int + n) as char else ('a' as int + n - 10) as char
  }

  predicate IsHexChar(c: char) {
    ('0' <= c <= '9') || ('a' <= c <= 'f') || ('A' <= c <= 'F')
  }

  predicate IsLowerHexChar(c: char) {
    ('0' <= c <= '9') || ('a' <= c <= 'f')
  }

  function HexValue(c: char): (n: int)
    requires IsHexChar(c)
    ensures 0 <= n < 16
  {
    if '0' <= c <= '9' then c as int - '0' as int
    else if 'a' <= c <= 'f' then c as int - 'a' as int + 10
    else c as int - 'A' as int + 10
  }

  /** `escape(char)`: the text standing for one byte. */
  function Escape(b: byte): (r: string)
    ensures 1 <= |r| <= 4 && |r| != 3
    ensures AllPrintable(r)
  {
    if IsPrintableByte(b) then
      var c := b as char;
      if c == '\\' || c == '"' then ['\\', c] else [c]
    else
      ['\\', 'x', HexDigit(b / 16), HexDigit(b % 16)]
  }

  /** The three cases of `escape`, each with its exact text. */
  lemma EscapeCases(b: byte)
    ensures IsPrintableByte(b) && b != '\\' as int && b != '"' as int ==> Escape(b) == [b as char]
    ensures b == '\\' as int ==> Escape(b) == "\\\\"
    ensures b == '"' as int ==> Escape(b) == "\\\""
    ensures !IsPrintableByte(b) ==>
      |Escape(b)| == 4 && Escape(b)[..2] == "\\x" &&
      IsLowerHexChar(Escape(b)[2]) && IsLowerHexChar(Escape(b)[3]) &&
      16 * HexValue(Escape(b)[2]) + HexValue(Escape(b)[3]) == b
  {
  }

  /** `convert(message)`: the concatenation of the escapes of every byte. */
  function Convert(s: seq<byte>): (r: string)
    ensures |s| <= |r| <= 4 * |s|
    ensures AllPrintable(r)
  {
    if s == [] then [] else Escape(s[0]) + Convert(s[1..])
  }

  lemma {:induction false} ConvertAppend(a: seq<byte>, b: seq<byte>)
    ensures Convert(a + b) == Convert(a) + Convert(b)
  {
    if a == [] {
      assert a + b == b;
    } else {
      assert (a + b)[1..] == a[1..] + b;
      ConvertAppend(a[1..], b);
    }
  }

  /** `Some(b)` prefixed to the bytes of an already decoded tail. */
  function Cons(b: byte, tail: Option<seq<byte>>): Option<seq<byte>> {
    match tail
    case None => None
    case Some(s) => Some([b] + s)
  }

  /** The bytes that a Python `b"..."` literal with body `t` denotes, for the
      escapes `\\`, `\"`, `\n` and `\xHH`; any other printable ASCII character
      stands for itself. `None` when `t` is not such a body: a bare `"` would
      close the literal early, a trailing `\` would escape the closing quote,
      and a character outside printable ASCII or another escape is not part of
      this grammar. */
  function LiteralBytes(t: string): Option<seq<byte>>
    decreases |t|
  {
    if t == [] then Some([])
    else if t[0] == '\\' then
      if |t| < 2 then None
      else if t[1] == '\\' then Cons('\\' as int, LiteralBytes(t[2..]))
      else if t[1] == '"' then Cons('"' as int, LiteralBytes(t[2..]))
      else if t[1] == 'n' then Cons(0x0a, LiteralBytes(t[2..]))
      else if t[1] == 'x' && |t| >= 4 && IsHexChar(t[2]) && IsHexChar(t[3]) then
        Cons(16 * HexValue(t[2]) + HexValue(t[3]), LiteralBytes(t[4..]))
      else None
    else if t[0] == '"' || !IsPrintableChar(t[0]) then None
    else Cons(t[0] as int, LiteralBytes(t[1..]))
  }

  /** Decoding the escape of one byte gives back that byte. */
  lemma LiteralBytesEscape(b: byte, t: string)
    ensures LiteralBytes(Escape(b) + t) == Cons(b, LiteralBytes(t))
  {
    var e := Escape(b);
    if IsPrintableByte(b) {
      if b == '\\' as int || b == '"' as int {
        assert (e + t)[2..] == t;
      } else {
        assert (e + t)[1..] == t;
      }
    } else {
      assert (e + t)[4..] == t;
      assert 16 * (b / 16) + b % 16 == b;
    }
  }

  /** Round trip: the literal `b"<convert(s)>"` denotes exactly `s`. */
  lemma {:induction false} ConvertRoundTrip(s: seq<byte>)
    ensures LiteralBytes(Convert(s)) == Some(s)
  {
    if s != [] {
      ConvertRoundTrip(s[1..]);
      LiteralBytesEscape(s[0], Convert(s[1..]));
      assert [s[0]] + s[1..] == s;
    }
  }

  /** The text can sit between the quotes of `b"..."` without ending the
      literal: read as a sequence of tokens (a backslash with the character
      after it, or one other character), every token is printable and no token
      is a bare quote. In particular every `"` is preceded by a backslash that
      is not itself escaped, and the text does not end in a lone backslash. */
  predicate SafeInQuotes(t: string)
    decreases |t|
  {
    if t == [] then true
    else if t[0] == '\\' then |t| >= 2 && IsPrintableChar(t[1]) && SafeInQuotes(t[2..])
    else t[0] != '"' && IsPrintableChar(t[0]) && SafeInQuotes(t[1..])
  }

  lemma SafeInQuotesEscape(b: byte, t: string)
    ensures SafeInQuotes(Escape(b) + t) == SafeInQuotes(t)
  {
    var e := Escape(b);
    if IsPrintableByte(b) {
      if b == '\\' as int || b == '"' as int {
        assert (e + t)[2..] == t;
      } else {
        assert (e + t)[1..] == t;
      }
    } else {
      assert e == ['\\', 'x', HexDigit(b / 16), HexDigit(b % 16)];
      var u := e + t;
      assert u[2..][1..] == u[3..] && u[3..][1..] == u[4..] == t;
      assert SafeInQuotes(u) == SafeInQuotes(u[2..]);
      assert SafeInQuotes(u[2..]) == SafeInQuotes(u[3..]);
      assert SafeInQuotes(u[3..]) == SafeInQuotes(t);
    }
  }

  lemma {:induction false} ConvertSafeInQuotes(s: seq<byte>)
    ensures SafeInQuotes(Convert(s))
  {
    if s != [] {
      ConvertSafeInQuotes(s[1..]);
      SafeInQuotesEscape(s[0], Convert(s[1..]));
    }
  }
}
