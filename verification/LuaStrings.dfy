/**
  String literals: what string.format("%q", s) writes, and what the scanner's readString makes
  of a literal.
 */
module LuaStrings {
  import opened Basics

  const QUOTE: byte := 34
  const BACKSLASH: byte := 92
  const NEWLINE: byte := 10
  const RETURN: byte := 13

  predicate IsNewLine(c: byte) {
    c == NEWLINE || c == RETURN
  }

  /** Below 256, the digits of Unicode are those of ASCII. */
  predicate IsDigit(c: byte) {
    48 <= c <= 57
  }

  // ---- The scanner ----

  /** Escapes that stand for one character. */
  function Escape(c: byte): Option<byte> {
    match c
    case 97 => Some(7)     // \a
    case 98 => Some(8)     // \b
    case 102 => Some(12)   // \f
    case 110 => Some(10)   // \n
    case 114 => Some(13)   // \r
    case 116 => Some(9)    // \t
    case 118 => Some(11)   // \v
    case 92 => Some(92)
    case 34 => Some(34)
    case 39 => Some(39)
    case _ => None
  }

  function HexDigit(c: byte): Option<nat> {
    if 48 <= c <= 57 then Some((c - 48) as nat)
    else if 97 <= c <= 102 then Some((c - 87) as nat)
    else if 65 <= c <= 70 then Some((c - 55) as nat)
    else None
  }

  predicate IsSpace(c: byte) {
    9 <= c <= 13 || c == 32 || c == 0x85 || c == 0xA0
  }

  /** The value of a literal, what is behind it, and the number of the line reached. */
  datatype Scanned = Str(value: seq<byte>, rest: seq<byte>, line: nat) | Error

  function Prepend(b: seq<byte>, r: Scanned): Scanned {
    if r.Str? then Str(b + r.value, r.rest, r.line) else Error
  }

  /** Behind a line break: of \r\n and \n\r both characters are skipped. */
  function AfterNewLine(s: seq<byte>): (r: seq<byte>)
    requires s != []
    ensures |r| < |s|
  {
    if |s| > 1 && IsNewLine(s[1]) && s[1] != s[0] then s[2..] else s[1..]
  }

  /** At most k decimal digits. */
  function Digits(s: seq<byte>, k: nat, sofar: nat): (r: (nat, seq<byte>))
    ensures |r.1| <= |s|
    decreases k
  {
    if k > 0 && s != [] && IsDigit(s[0]) then Digits(s[1..], k - 1, 10 * sofar + (s[0] - 48) as nat) else (sofar, s)
  }

  datatype Skipped = Skipped(rest: seq<byte>, line: nat) | TooManyLines

  /** The whitespace skipped by \z. */
  function SkipSpace(s: seq<byte>, line: nat, maxLine: nat): (r: Skipped)
    ensures r.Skipped? ==> |r.rest| <= |s|
    decreases |s|
  {
    if s == [] || !IsSpace(s[0]) then Skipped(s, line)
    else if IsNewLine(s[0]) then
      if line + 1 >= maxLine then TooManyLines else SkipSpace(AfterNewLine(s), line + 1, maxLine)
    else SkipSpace(s[1..], line, maxLine)
  }

  /** What follows the opening delimiter. */
  function Scan(s: seq<byte>, delimiter: byte, line: nat, maxLine: nat): Scanned
    decreases |s|
  {
    if s == [] then Error
    else if s[0] == delimiter then Str([], s[1..], line)
    else if IsNewLine(s[0]) then Error
    else if s[0] != BACKSLASH then Prepend([s[0]], Scan(s[1..], delimiter, line, maxLine))
    else if |s| == 1 then Error
    else ScanEscape(s[1..], delimiter, line, maxLine)
  }

  /** What follows a backslash. */
  function ScanEscape(s: seq<byte>, delimiter: byte, line: nat, maxLine: nat): Scanned
    requires s != []
    decreases |s|
  {
    var c := s[0];
    if Escape(c).Some? then Prepend([Escape(c).value], Scan(s[1..], delimiter, line, maxLine))
    else if IsNewLine(c) then
      if line + 1 >= maxLine then Error else Prepend([NEWLINE], Scan(AfterNewLine(s), delimiter, line + 1, maxLine))
    else if c == 120 then
      if |s| < 3 || HexDigit(s[1]).None? || HexDigit(s[2]).None? then Error
      else Prepend([(16 * HexDigit(s[1]).value + HexDigit(s[2]).value) as byte], Scan(s[3..], delimiter, line, maxLine))
    else if c == 122 then
      var r := SkipSpace(s[1..], line, maxLine);
      if r.TooManyLines? then Error else Scan(r.rest, delimiter, r.line, maxLine)
    else if !IsDigit(c) then Error
    else
      var r := Digits(s[1..], 2, (c - 48) as nat);
      if r.0 > 255 then Error else Prepend([r.0 as byte], Scan(r.1, delimiter, line, maxLine))
  }

  // ---- The scanner as it runs ----

  class Scanner {
    const input: seq<byte>
    const maxLine: nat
    var pos: nat
    var buffer: seq<byte>
    var line: nat

    ghost predicate Valid()
      reads this
    {
      pos <= |input|
    }

    ghost function Rest(): seq<byte>
      reads this
      requires Valid()
    {
      input[pos..]
    }

    constructor (input: seq<byte>, line: nat, maxLine: nat)
      ensures Valid() && Rest() == input && buffer == [] && this.line == line && this.maxLine == maxLine
    {
      this.input, this.maxLine := input, maxLine;
      pos, buffer, this.line := 0, [], line;
    }

    predicate AtEnd()
      reads this
    {
      pos >= |input|
    }

    function Current(): byte
      reads this
      requires !AtEnd()
    {
      input[pos]
    }

    method Advance()
      requires Valid()
      modifies this`pos
      ensures Valid() && pos == if old(pos) < |input| then old(pos) + 1 else old(pos)
    {
      if pos < |input| {
        pos := pos + 1;
      }
    }

    /** incrementLineNumber; false stands for its error. */
    method IncrementLineNumber() returns (ok: bool)
      requires Valid() && !AtEnd() && IsNewLine(Current())
      modifies this`pos, this`line
      ensures Valid() && Rest() == AfterNewLine(old(Rest())) && line == old(line) + 1 && ok == (line < maxLine)
    {
      var first := Current();
      Advance();
      if !AtEnd() && IsNewLine(Current()) && Current() != first {
        Advance();
      }
      line := line + 1;
      return line < maxLine;
    }

    method ReadDecimalEscape() returns (ok: bool, r: nat)
      requires Valid() && !AtEnd() && IsDigit(Current())
      modifies this`pos
      ensures Valid()
      ensures var d := Digits(old(Rest())[1..], 2, (old(Current()) - 48) as nat);
              && ok == (d.0 <= 255) && r == d.0 && Rest() == d.1
    {
      r := 0;
      var i := 0;
      ghost var goal := Digits(Rest(), 3, 0);
      assert goal == Digits(Rest()[1..], 2, (Current() - 48) as nat);
      while i < 3 && !AtEnd() && IsDigit(Current())
        invariant 0 <= i <= 3 && Valid()
        invariant goal == Digits(Rest(), 3 - i, r)
      {
        assert Rest()[1..] == input[pos + 1..];
        r := 10 * r + (Current() - 48) as nat;
        Advance();
        i := i + 1;
      }
      return r <= 255, r;
    }

    method SkipWhitespace() returns (ok: bool)
      requires Valid()
      modifies this`pos, this`line
      ensures Valid()
      ensures ok == SkipSpace(old(Rest()), old(line), maxLine).Skipped?
      ensures ok ==> SkipSpace(old(Rest()), old(line), maxLine) == Skipped(Rest(), line)
    {
      ghost var goal := SkipSpace(Rest(), line, maxLine);
      while !AtEnd() && IsSpace(Current())
        invariant Valid() && goal == SkipSpace(Rest(), line, maxLine)
        decreases |input| - pos
      {
        assert Rest()[1..] == input[pos + 1..];
        if IsNewLine(Current()) {
          var fine := IncrementLineNumber();
          if !fine {
            return false;
          }
        } else {
          Advance();
        }
      }
      return true;
    }

    /** The hexadecimal digits of \x. */
    method ReadHexEscape() returns (ok: bool, r: nat)
      requires Valid() && !AtEnd()
      modifies this`pos
      ensures Valid()
      ensures ok == (|old(Rest())| >= 3 && HexDigit(old(Rest())[1]).Some? && HexDigit(old(Rest())[2]).Some?)
      ensures ok ==>
        && r == 16 * HexDigit(old(Rest())[1]).value + HexDigit(old(Rest())[2]).value
        && Rest() == old(Rest())[3..]
    {
      r := 0;
      ghost var s := Rest();
      Advance();
      var i := 1;
      while i < 3
        invariant 1 <= i <= 3 && Valid() && i <= |s| && pos == old(pos) + i
        invariant i == 1 ==> r == 0
        invariant i == 2 ==> HexDigit(s[1]) == Some(r)
        invariant i == 3 ==> HexDigit(s[1]).Some? && HexDigit(s[2]).Some? && r == 16 * HexDigit(s[1]).value + HexDigit(s[2]).value
      {
        if AtEnd() || HexDigit(Current()).None? {
          return false, 0;
        }
        r := 16 * r + HexDigit(Current()).value;
        Advance();
        i := i + 1;
      }
      return true, r;
    }

    /** What follows a backslash, with that already skipped. */
    method ReadEscape(delimiter: byte) returns (ok: bool)
      requires Valid() && !AtEnd()
      modifies this`pos, this`buffer, this`line
      ensures Valid() && |buffer| >= |old(buffer)|
      ensures ok ==>
        && pos > old(pos) && buffer[..|old(buffer)|] == old(buffer)
        && ScanEscape(old(Rest()), delimiter, old(line), maxLine)
           == Prepend(buffer[|old(buffer)|..], Scan(Rest(), delimiter, line, maxLine))
      ensures !ok ==> ScanEscape(old(Rest()), delimiter, old(line), maxLine) == Error
    {
      hide Scan;
      var c := Current();
      assert Rest()[1..] == input[pos + 1..];
      if Escape(c).Some? {
        Advance();
        buffer := buffer + [Escape(c).value];
      } else if IsNewLine(c) {
        ok := IncrementLineNumber();
        if !ok {
          return;
        }
        buffer := buffer + [NEWLINE];
      } else if c == 120 {
        var r;
        ok, r := ReadHexEscape();
        if !ok {
          return;
        }
        buffer := buffer + [r as byte];
      } else if c == 122 {
        Advance();
        ok := SkipWhitespace();
        if !ok {
          return;
        }
      } else {
        if !IsDigit(c) {
          return false;
        }
        var r;
        ok, r := ReadDecimalEscape();
        if !ok {
          return;
        }
        buffer := buffer + [r as byte];
      }
      return true;
    }

    /** readString: on every input it scans what the literal at the front stands for. */
    method ReadString() returns (ok: bool, str: seq<byte>)
      requires Valid() && !AtEnd() && buffer == []
      modifies this`pos, this`buffer, this`line
      ensures Valid()
      ensures ok == Scan(old(Rest())[1..], old(Current()), old(line), maxLine).Str?
      ensures ok ==> Scan(old(Rest())[1..], old(Current()), old(line), maxLine) == Str(str, Rest(), line) && buffer == []
    {
      hide Scan, ScanEscape;
      var delimiter := Current();
      str := [];
      ghost var goal := Scan(Rest()[1..], delimiter, line, maxLine);
      assert Rest()[1..] == input[pos + 1..];
      buffer := buffer + [Current()];
      Advance();
      while AtEnd() || Current() != delimiter
        invariant Valid() && buffer != []
        invariant goal == Prepend(buffer[1..], Scan(Rest(), delimiter, line, maxLine))
        decreases |input| - pos
      {
        ScanStep(Rest(), delimiter, line, maxLine);
        if AtEnd() || IsNewLine(Current()) {
          return false, [];
        }
        assert Rest()[1..] == input[pos + 1..];
        ghost var before := buffer;
        if Current() == BACKSLASH {
          Advance();
          if AtEnd() {
            return false, [];
          }
          ok := ReadEscape(delimiter);
          if !ok {
            return false, [];
          }
        } else {
          buffer := buffer + [Current()];
          Advance();
        }
        PrependTwice(before[1..], buffer[|before|..], Scan(Rest(), delimiter, line, maxLine));
        assert buffer[1..] == before[1..] + buffer[|before|..];
      }
      assert Rest()[1..] == input[pos + 1..];
      ScanStep(Rest(), delimiter, line, maxLine);
      str := buffer[1..];
      Advance();
      buffer := [];
      return true, str;
    }
  }

  lemma ScanStep(s: seq<byte>, delimiter: byte, line: nat, maxLine: nat)
    ensures Scan(s, delimiter, line, maxLine) ==
      if s == [] then Error
      else if s[0] == delimiter then Str([], s[1..], line)
      else if IsNewLine(s[0]) then Error
      else if s[0] != BACKSLASH then Prepend([s[0]], Scan(s[1..], delimiter, line, maxLine))
      else if |s| == 1 then Error
      else ScanEscape(s[1..], delimiter, line, maxLine)
  {
  }

  lemma PrependTwice(a: seq<byte>, b: seq<byte>, r: Scanned)
    ensures Prepend(a, Prepend(b, r)) == Prepend(a + b, r)
  {
    if r.Str? {
      assert a + (b + r.value) == a + b + r.value;
    }
  }

  // ---- The printer ----

  function Digit(n: nat): byte
    requires n < 10
  {
    (48 + n) as byte
  }

  /** Go's %d and %03d, of a byte. */
  function Decimal(c: byte): seq<byte> {
    var n := c as nat;
    if n < 10 then [Digit(n)]
    else if n < 100 then [Digit(n / 10), Digit(n % 10)]
    else [Digit(n / 100), Digit(n / 10 % 10), Digit(n % 10)]
  }

  function ThreeDigits(c: byte): seq<byte> {
    var n := c as nat;
    [Digit(n / 100), Digit(n / 10 % 10), Digit(n % 10)]
  }

  predicate IsPlain(c: byte) {
    32 <= c && c != 127
  }

  /** How one byte is written, with or without a digit behind it. */
  function Piece(c: byte, digitNext: bool): seq<byte> {
    if c == QUOTE || c == BACKSLASH || c == NEWLINE then [BACKSLASH, c]
    else if IsPlain(c) then [c]
    else [BACKSLASH] + if digitNext then ThreeDigits(c) else Decimal(c)
  }

  function Pieces(s: seq<byte>): seq<byte> {
    if s == [] then [] else Piece(s[0], |s| > 1 && IsDigit(s[1])) + Pieces(s[1..])
  }

  function Quoted(s: seq<byte>): seq<byte> {
    [QUOTE] + Pieces(s) + [QUOTE]
  }

  lemma PiecesStep(s: seq<byte>, i: nat)
    requires i < |s|
    ensures Pieces(s[i..]) == Piece(s[i], i + 1 < |s| && IsDigit(s[i + 1])) + Pieces(s[i + 1..])
  {
    assert s[i..][1..] == s[i + 1..];
  }

  /** The 'q' case of formatHelper: one byte. */
  method WritePiece(b: seq<byte>, s: seq<byte>, i: nat) returns (b': seq<byte>)
    requires i < |s|
    ensures b' == b + Piece(s[i], i + 1 < |s| && IsDigit(s[i + 1]))
  {
    hide Decimal, ThreeDigits;
    if s[i] == QUOTE || s[i] == BACKSLASH || s[i] == NEWLINE {
      b' := b + [BACKSLASH];
      b' := b' + [s[i]];
    } else if 32 <= s[i] && s[i] != 127 {
      b' := b + [s[i]];
    } else if i + 1 < |s| && IsDigit(s[i + 1]) {
      b' := b + ([BACKSLASH] + ThreeDigits(s[i]));
    } else {
      b' := b + ([BACKSLASH] + Decimal(s[i]));
    }
  }

  method FormatQ(s: seq<byte>) returns (b: seq<byte>)
    ensures b == Quoted(s)
  {
    hide Pieces, Piece;
    b := [QUOTE];
    assert s[0..] == s;
    for i := 0 to |s|
      invariant b + Pieces(s[i..]) == [QUOTE] + Pieces(s)
    {
      PiecesStep(s, i);
      ghost var before, piece := b, Piece(s[i], i + 1 < |s| && IsDigit(s[i + 1]));
      b := WritePiece(b, s, i);
      assert before + piece + Pieces(s[i + 1..]) == before + (piece + Pieces(s[i + 1..]));
    }
    PiecesOfNone(s[|s|..]);
    b := b + [QUOTE];
  }

  lemma PiecesOfNone(s: seq<byte>)
    requires s == []
    ensures Pieces(s) == []
  {
  }

  // ---- Round trip ----

  function NewLines(s: seq<byte>): nat {
    if s == [] then 0 else (if s[0] == NEWLINE then 1 else 0) + NewLines(s[1..])
  }

  /** A decimal escape is read back, if no digit follows one that is not of three digits. */
  lemma ScansDecimal(c: byte, three: bool, t: seq<byte>, line: nat, maxLine: nat)
    requires t != [] && (!three ==> !IsDigit(t[0]))
    ensures var d := if three then ThreeDigits(c) else Decimal(c);
            ScanEscape(d + t, QUOTE, line, maxLine) == Prepend([c], Scan(t, QUOTE, line, maxLine))
  {
    DigitsRead(c, three, t);
    hide Digits, Scan, ThreeDigits, Decimal;
  }

  lemma DigitsRead(c: byte, three: bool, t: seq<byte>)
    requires t != [] && (!three ==> !IsDigit(t[0]))
    ensures var s := (if three then ThreeDigits(c) else Decimal(c)) + t;
            IsDigit(s[0]) && Digits(s[1..], 2, (s[0] - 48) as nat) == (c as nat, t)
  {
    var d := if three then ThreeDigits(c) else Decimal(c);
    var s := d + t;
    if |d| == 1 {
      assert s[1..] == t;
    } else if |d| == 2 {
      assert s[1..][1..] == t;
    } else {
      assert s[1..][1..][1..] == t;
    }
  }

  /** Each piece is read back as its byte. */
  lemma ScansPiece(c: byte, digitNext: bool, t: seq<byte>, line: nat, maxLine: nat)
    requires t != [] && (!digitNext ==> !IsDigit(t[0])) && !IsNewLine(t[0])
    requires c == NEWLINE ==> line + 1 < maxLine
    ensures Scan(Piece(c, digitNext) + t, QUOTE, line, maxLine)
            == Prepend([c], Scan(t, QUOTE, if c == NEWLINE then line + 1 else line, maxLine))
  {
    var s := Piece(c, digitNext) + t;
    if c == QUOTE || c == BACKSLASH || c == NEWLINE {
      assert s[1..] == [c] + t && s[1..][1..] == t;
    } else if IsPlain(c) {
      assert s[1..] == t;
    } else {
      assert s[1..] == (if digitNext then ThreeDigits(c) else Decimal(c)) + t;
      ScansDecimal(c, digitNext, t, line, maxLine);
    }
  }

  /** What follows a piece never looks like more of it. */
  lemma TailBegins(s: seq<byte>, rest: seq<byte>)
    requires s != []
    ensures var t := Pieces(s[1..]) + [QUOTE] + rest;
            t != [] && !IsNewLine(t[0]) && (!(|s| > 1 && IsDigit(s[1])) ==> !IsDigit(t[0]))
  {
    if |s| > 1 {
      PiecesStep(s, 1);
    }
  }

  lemma {:induction false} ScansPieces(s: seq<byte>, rest: seq<byte>, line: nat, maxLine: nat)
    requires line + NewLines(s) < maxLine
    ensures Scan(Pieces(s) + [QUOTE] + rest, QUOTE, line, maxLine) == Str(s, rest, line + NewLines(s))
    decreases |s|
  {
    hide Scan, Pieces, Piece;
    if s == [] {
      PiecesOfNone(s);
      var all := [QUOTE] + rest;
      assert [] + [QUOTE] + rest == all && all[1..] == rest;
      ScanStep(all, QUOTE, line, maxLine);
    } else {
      PiecesStep(s, 0);
      TailBegins(s, rest);
      assert s[0..] == s;
      var digitNext := |s| > 1 && IsDigit(s[1]);
      var t := Pieces(s[1..]) + [QUOTE] + rest;
      assert Pieces(s) + [QUOTE] + rest == Piece(s[0], digitNext) + t;
      var line' := if s[0] == NEWLINE then line + 1 else line;
      ScansPieces(s[1..], rest, line', maxLine);
      ScansPiece(s[0], digitNext, t, line, maxLine);
      assert s == [s[0]] + s[1..];
    }
  }

  /**
    For every string, readString reads what "%q" wrote as that string, without an error (as long
    as the lines can be counted), and stops right behind it.
   */
  lemma QuotedReadsBack(s: seq<byte>, rest: seq<byte>, line: nat, maxLine: nat)
    requires line + NewLines(s) < maxLine
    ensures Quoted(s)[0] == QUOTE
    ensures Scan((Quoted(s) + rest)[1..], QUOTE, line, maxLine) == Str(s, rest, line + NewLines(s))
  {
    ScansPieces(s, rest, line, maxLine);
    assert (Quoted(s) + rest)[1..] == Pieces(s) + [QUOTE] + rest;
  }

  /** The printer and the scanner, one after the other. */
  method PrintThenScan(s: seq<byte>, rest: seq<byte>, maxLine: nat) returns (ok: bool, str: seq<byte>)
    requires 1 + NewLines(s) < maxLine
    ensures ok && str == s
  {
    var b := FormatQ(s);
    var scanner := new Scanner(b + rest, 1, maxLine);
    QuotedReadsBack(s, rest, 1, maxLine);
    ok, str := scanner.ReadString();
  }
}
