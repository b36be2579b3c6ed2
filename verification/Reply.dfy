/**
Replies on the control connection (`ftpcmdio.c`): status, separator, escaped text, CR LF
(section 4.2 of RFC 959). Telnet's 0xFF is doubled and a line feed inside the text becomes
a NUL, so a reply is always one line and its text can be recovered.
*/
module Reply {
  import opened Common
  import opened Str
  import opened Decimal

  const LF: Byte := 10
  const CR: Byte := 13
  const NUL: Byte := 0
  const IAC: Byte := 255
  const QUOTE: Byte := 34

  /** The text as it is sent. */
  function Mangled(text: seq<Byte>): seq<Byte> {
    ReplaceChar(Doubled(text, IAC), LF, NUL)
  }

  function Encoded(status: nat, sep: Byte, text: seq<Byte>): seq<Byte> {
    Print(status) + [sep] + Mangled(text) + [CR, LF]
  }

  /** `ftp_write_str_common`, up to the write. */
  method WriteStrCommon(status: nat, sep: Byte, text: seq<Byte>) returns (buf: seq<Byte>)
    ensures buf == Encoded(status, sep, text)
  {
    var mangle := text;
    mangle := ReplaceText(mangle, [IAC], [IAC, IAC]);
    ReplaceAllDoubles(text, IAC);
    mangle := ReplaceCharIn(mangle, LF, NUL);
    buf := Print(status);
    buf := buf + [sep];
    buf := buf + mangle;
    buf := buf + [CR, LF];
  }

  // ----- one line

  lemma MangledHasNoLf(text: seq<Byte>)
    ensures LF !in Mangled(text)
  {
  }

  /** A reply contains exactly one line feed, and it is the last byte. */
  lemma ReplyIsOneLine(status: nat, sep: Byte, text: seq<Byte>)
    requires sep != LF
    ensures var r := Encoded(status, sep, text);
            r[|r| - 1] == LF && r[|r| - 2] == CR && LF !in r[..|r| - 1]
  {
    var r := Encoded(status, sep, text);
    var body := Print(status) + [sep] + Mangled(text);
    MangledHasNoLf(text);
    assert forall i :: 0 <= i < |Print(status)| ==> IsDigit(Print(status)[i]);
    assert r[..|r| - 1] == body + [CR];
  }

  // ----- recovery

  /** What a client makes of a reply: number, separator, text. */
  datatype Parsed = Parsed(status: nat, sep: Byte, text: seq<Byte>) | Malformed

  function Decoded(r: seq<Byte>): Parsed {
    var n := DigitRun(r);
    if n == 0 || n + 3 > |r| || r[|r| - 2..] != [CR, LF] then Malformed
    else Parsed(Value(r[..n]), r[n], Undoubled(r[n + 1..|r| - 2], IAC))
  }

  lemma ReplaceCharConcat(a: seq<Byte>, b: seq<Byte>)
    ensures ReplaceChar(a + b, LF, NUL) == ReplaceChar(a, LF, NUL) + ReplaceChar(b, LF, NUL)
  {
  }

  lemma {:induction false} MangledIsDoubled(text: seq<Byte>)
    ensures Mangled(text) == Doubled(ReplaceChar(text, LF, NUL), IAC)
  {
    if text != [] {
      var rest := text[1..];
      MangledIsDoubled(rest);
      var head := if text[0] == IAC then [IAC, IAC] else [text[0]];
      assert Doubled(text, IAC) == head + Doubled(rest, IAC);
      ReplaceCharConcat(head, Doubled(rest, IAC));
      var plain := ReplaceChar(text, LF, NUL);
      assert plain[1..] == ReplaceChar(rest, LF, NUL);
      assert plain[0] == IAC <==> text[0] == IAC;
    }
  }

  /** Decoding undoes encoding, up to line feeds, which arrive as NULs. */
  lemma ReplyRoundTrip(status: nat, sep: Byte, text: seq<Byte>)
    requires !IsDigit(sep)
    ensures Decoded(Encoded(status, sep, text)) == Parsed(status, sep, ReplaceChar(text, LF, NUL))
  {
    var r, p, m := Encoded(status, sep, text), Print(status), Mangled(text);
    assert r == p + ([sep] + m + [CR, LF]);
    DigitRunOf(p, [sep] + m + [CR, LF]);
    ValueOfPrint(status);
    MangledIsDoubled(text);
    UndoubleDouble(ReplaceChar(text, LF, NUL), IAC);
    assert r[..|p|] == p && r[|p| + 1..|r| - 2] == m && r[|r| - 2..] == [CR, LF];
  }

  // ----- quoted path names

  /** The path in a PWD or MKD reply, and what follows its closing quote. */
  function Quoted(path: seq<Byte>, rest: seq<Byte>): seq<Byte> {
    [QUOTE] + Doubled(path, QUOTE) + [QUOTE] + rest
  }

  /** Read up to the first quote that is not doubled. */
  function ReadQuoted(s: seq<Byte>): (r: (seq<Byte>, seq<Byte>)) {
    if s == [] then ([], [])
    else if s[0] != QUOTE then ([s[0]] + ReadQuoted(s[1..]).0, ReadQuoted(s[1..]).1)
    else if |s| > 1 && s[1] == QUOTE then ([QUOTE] + ReadQuoted(s[2..]).0, ReadQuoted(s[2..]).1)
    else ([], s[1..])
  }

  lemma {:induction false} ReadQuotedDoubled(path: seq<Byte>, rest: seq<Byte>)
    requires rest != [] ==> rest[0] != QUOTE
    ensures ReadQuoted(Doubled(path, QUOTE) + ([QUOTE] + rest)) == (path, rest)
  {
    var tail := [QUOTE] + rest;
    if path == [] {
      assert Doubled(path, QUOTE) + tail == tail;
      assert tail[1..] == rest;
    } else {
      var head := if path[0] == QUOTE then [QUOTE, QUOTE] else [path[0]];
      var more := Doubled(path[1..], QUOTE) + tail;
      ReadQuotedDoubled(path[1..], rest);
      SameTail([], head, Doubled(path[1..], QUOTE), tail);
      assert Doubled(path, QUOTE) + tail == head + more;
      assert (head + more)[|head|..] == more;
      assert path == [path[0]] + path[1..];
    }
  }

  /** Whatever quotes a path contains, the reply names that path and no other. */
  lemma QuotedPathRoundTrip(path: seq<Byte>, rest: seq<Byte>)
    requires rest != [] ==> rest[0] != QUOTE
    ensures ReadQuoted(Quoted(path, rest)[1..]) == (path, rest)
  {
    ReadQuotedDoubled(path, rest);
    assert Quoted(path, rest)[1..] == Doubled(path, QUOTE) + ([QUOTE] + rest);
  }
}
