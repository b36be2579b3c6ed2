/**
Newline translation for ASCII downloads (`ascii.c`): a line feed that is not preceded by a
carriage return gets one. A file is translated buffer by buffer, and one flag carries over.
*/
module Ascii {
  import opened Common

  const CR: Byte := 13
  const LF: Byte := 10

  /** What one byte becomes. */
  function Translated(c: Byte, afterCr: bool): seq<Byte> {
    if c == LF && !afterCr then [CR, LF] else [c]
  }

  /** Translation of the whole of `s`, whose first byte comes after a CR when `afterCr`. */
  function ToAscii(s: seq<Byte>, afterCr: bool): seq<Byte> {
    if s == [] then []
    else Translated(s[0], afterCr) + ToAscii(s[1..], s[0] == CR)
  }

  /** Whether the byte before the next one is a CR. */
  function EndsInCr(s: seq<Byte>, afterCr: bool): bool {
    if s == [] then afterCr else s[|s| - 1] == CR
  }

  /** `vsf_ascii_bin_to_ascii`: the output buffer is distinct from the input and twice as long. */
  method BinToAscii(input: array<Byte>, len: nat, output: array<Byte>, prevCr: bool)
      returns (stored: nat, lastWasCr: bool)
    requires len <= input.Length && 2 * len <= output.Length && input != output
    modifies output
    ensures stored <= 2 * len && output[..stored] == ToAscii(input[..len], prevCr)
    ensures lastWasCr == EndsInCr(input[..len], prevCr)
  {
    var i, written := 0, 0;
    var lastChar: Byte := 0;
    lastWasCr := false;
    if prevCr {
      lastChar := CR;
      lastWasCr := true;
    }
    while i < len
      invariant i <= len && written <= 2 * i
      invariant lastWasCr == (lastChar == CR) == EndsInCr(input[..i], prevCr)
      invariant output[..written] == ToAscii(input[..i], prevCr)
    {
      var c := input[i];
      ghost var done := output[..written];
      if c == LF && lastChar != CR {
        output[written] := CR;
        written := written + 1;
      }
      output[written] := c;
      written := written + 1;
      assert output[..written] == done + Translated(c, lastWasCr);
      OneMore(input[..i], c, prevCr);
      assert input[..i + 1] == input[..i] + [c];
      i := i + 1;
      lastChar := c;
      lastWasCr := c == CR;
    }
    stored := written;
  }

  // ----- independence of how the file is cut

  lemma OneMore(s: seq<Byte>, c: Byte, afterCr: bool)
    ensures ToAscii(s + [c], afterCr) == ToAscii(s, afterCr) + Translated(c, EndsInCr(s, afterCr))
  {
    ToAsciiConcat(s, [c], afterCr);
    assert ToAscii([c], EndsInCr(s, afterCr)) == Translated(c, EndsInCr(s, afterCr)) + ToAscii([c][1..], c == CR);
  }

  lemma {:induction false} ToAsciiConcat(a: seq<Byte>, b: seq<Byte>, afterCr: bool)
    ensures ToAscii(a + b, afterCr) == ToAscii(a, afterCr) + ToAscii(b, EndsInCr(a, afterCr))
  {
    if a == [] {
      assert a + b == b;
    } else {
      ToAsciiConcat(a[1..], b, a[0] == CR);
      assert (a + b)[1..] == a[1..] + b;
      assert EndsInCr(a, afterCr) == EndsInCr(a[1..], a[0] == CR);
      Associative(Translated(a[0], afterCr), ToAscii(a[1..], a[0] == CR), ToAscii(b, EndsInCr(a, afterCr)));
    }
  }

  function Concat(chunks: seq<seq<Byte>>): seq<Byte> {
    if chunks == [] then [] else chunks[0] + Concat(chunks[1..])
  }

  /** The buffers sent for the chunks of a file, the flag carried from each to the next. */
  function Sent(chunks: seq<seq<Byte>>, afterCr: bool): seq<Byte> {
    if chunks == [] then []
    else ToAscii(chunks[0], afterCr) + Sent(chunks[1..], EndsInCr(chunks[0], afterCr))
  }

  /** However a file is cut into chunks, what is sent is the translation of the file. */
  lemma {:induction false} ChunkingDoesNotMatter(chunks: seq<seq<Byte>>, afterCr: bool)
    ensures Sent(chunks, afterCr) == ToAscii(Concat(chunks), afterCr)
  {
    if chunks != [] {
      ChunkingDoesNotMatter(chunks[1..], EndsInCr(chunks[0], afterCr));
      ToAsciiConcat(chunks[0], Concat(chunks[1..]), afterCr);
    }
  }

  // ----- what the translation is

  /** Every line ends in CR LF: no LF without a CR in front of it. */
  ghost predicate NoBareLf(s: seq<Byte>, afterCr: bool) {
    forall i {:trigger s[i]} :: 0 <= i < |s| && s[i] == LF ==> if i == 0 then afterCr else s[i - 1] == CR
  }

  /** `s` without the CRs directly in front of an LF: the text in the server's own lines. */
  function Lines(s: seq<Byte>): seq<Byte> {
    if s == [] then []
    else if s[0] == CR && |s| > 1 && s[1] == LF then Lines(s[1..])
    else [s[0]] + Lines(s[1..])
  }

  /** Number of LFs that need a CR. */
  function BareLfs(s: seq<Byte>, afterCr: bool): nat {
    if s == [] then 0 else (if s[0] == LF && !afterCr then 1 else 0) + BareLfs(s[1..], s[0] == CR)
  }

  lemma NoBareLfTail(s: seq<Byte>, afterCr: bool)
    requires s != []
    ensures NoBareLf(s, afterCr) <==> (s[0] == LF ==> afterCr) && NoBareLf(s[1..], s[0] == CR)
  {
    var t := s[1..];
    if (s[0] == LF ==> afterCr) && NoBareLf(t, s[0] == CR) {
      forall i | 0 < i < |s| && s[i] == LF ensures s[i - 1] == CR {
        assert t[i - 1] == LF;
        if i > 1 { assert t[i - 2] == s[i - 1]; }
      }
    }
    if NoBareLf(s, afterCr) {
      assert s[0] == LF ==> afterCr;
      forall i | 0 <= i < |t| && t[i] == LF ensures if i == 0 then s[0] == CR else t[i - 1] == CR {
        assert s[i + 1] == LF && s[i] == CR;
      }
    }
  }

  /** The output has only CR LF line ends. */
  lemma {:induction false} OutputHasNoBareLf(s: seq<Byte>, afterCr: bool)
    ensures NoBareLf(ToAscii(s, afterCr), afterCr)
  {
    if s != [] {
      var t := ToAscii(s, afterCr);
      OutputHasNoBareLf(s[1..], s[0] == CR);
      NoBareLfTail(t, afterCr);
      if s[0] == LF && !afterCr {
        assert t[1..] == [LF] + ToAscii(s[1..], false);
        NoBareLfTail(t[1..], true);
        assert t[1..][1..] == ToAscii(s[1..], false);
      } else {
        assert t[1..] == ToAscii(s[1..], s[0] == CR);
      }
    }
  }

  /** A text that already has only CR LF line ends is left alone, and no other text is. */
  lemma {:induction false} FixedPoints(s: seq<Byte>, afterCr: bool)
    ensures |ToAscii(s, afterCr)| == |s| + BareLfs(s, afterCr) <= 2 * |s|
    ensures NoBareLf(s, afterCr) <==> ToAscii(s, afterCr) == s
  {
    if s != [] {
      FixedPoints(s[1..], s[0] == CR);
      NoBareLfTail(s, afterCr);
      if s[0] == LF && !afterCr {
        assert |ToAscii(s, afterCr)| > |s|;
      } else {
        assert ToAscii(s, afterCr)[1..] == ToAscii(s[1..], s[0] == CR);
      }
    }
  }

  /** Translating twice is translating once. */
  lemma Idempotent(s: seq<Byte>, afterCr: bool)
    ensures ToAscii(ToAscii(s, afterCr), afterCr) == ToAscii(s, afterCr)
  {
    OutputHasNoBareLf(s, afterCr);
    FixedPoints(ToAscii(s, afterCr), afterCr);
  }

  /** Only line ends change: the lines of the output are the lines of the input. */
  lemma {:induction false} LinesKept(s: seq<Byte>, afterCr: bool)
    ensures Lines(ToAscii(s, afterCr)) == Lines(s)
  {
    if s != [] {
      var rest := ToAscii(s[1..], s[0] == CR);
      LinesKept(s[1..], s[0] == CR);
      if s[0] == LF && !afterCr {
        assert ToAscii(s, afterCr) == [CR] + ([LF] + rest);
        assert ([CR] + ([LF] + rest))[1..] == [LF] + rest;
        assert ([LF] + rest)[1..] == rest;
      } else {
        assert ToAscii(s, afterCr) == [s[0]] + rest;
        assert ([s[0]] + rest)[1..] == rest;
        if |s| > 1 {
          assert s[1..][0] == s[1];
        }
      }
    }
  }
}
