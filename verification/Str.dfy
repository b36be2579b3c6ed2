/**
The string operations of `str.c` that search, split and replace, on strings as sequences
of bytes.
*/
module Str {
  import opened Common

  /** `t` stands at position `i` of `s`. */
  predicate OccursAt(s: seq<Byte>, t: seq<Byte>, i: nat) {
    i + |t| <= |s| && s[i..i + |t|] == t
  }

  /** The search result: `found` at the first place, or not there at all. An empty text is
      never found. */
  ghost predicate IsLocation(s: seq<Byte>, t: seq<Byte>, found: bool, index: nat) {
    if found then t != [] && OccursAt(s, t, index) && forall j :: 0 <= j < index ==> !OccursAt(s, t, j)
    else t == [] || forall j :: 0 <= j <= |s| ==> !OccursAt(s, t, j)
  }

  /** `str_locate_text`. */
  method LocateText(s: seq<Byte>, text: seq<Byte>) returns (found: bool, index: nat)
    ensures IsLocation(s, text, found, index)
  {
    if |text| == 0 || |text| > |s| { return false, 0; }
    for i := 0 to |s| - |text| + 1
      invariant forall j :: 0 <= j < i ==> !OccursAt(s, text, j)
    {
      if s[i..i + |text|] == text { return true, i; }
    }
    return false, 0;
  }

  /** `str_locate_chars`: the first byte of `s` that is one of `chars`. */
  method LocateChars(s: seq<Byte>, chars: seq<Byte>) returns (found: bool, index: nat)
    ensures found ==> index < |s| && s[index] in chars && forall j :: 0 <= j < index ==> s[j] !in chars
    ensures !found ==> forall j :: 0 <= j < |s| ==> s[j] !in chars
  {
    for i := 0 to |s|
      invariant forall j :: 0 <= j < i ==> s[j] !in chars
    {
      for j := 0 to |chars|
        invariant s[i] !in chars[..j]
      {
        if chars[j] == s[i] { return true, i; }
      }
      assert chars[..|chars|] == chars;
    }
    return false, 0;
  }

  /** Where `t` first occurs in `s`, if it does. */
  function Locate(s: seq<Byte>, t: seq<Byte>): (r: int)
    requires t != []
    ensures -1 <= r && IsLocation(s, t, r >= 0, if r >= 0 then r else 0)
  {
    if |t| > |s| then -1
    else if s[..|t|] == t then 0
    else
      var r := Locate(s[1..], t);
      LocateStep(s, t, r);
      if r < 0 then -1 else r + 1
  }

  lemma SliceOfTail(s: seq<Byte>, j: nat, len: nat)
    requires 0 < j
    ensures j + len <= |s| ==> s[1..][j - 1..j - 1 + len] == s[j..j + len]
  {
  }

  lemma LocateStep(s: seq<Byte>, t: seq<Byte>, r: int)
    requires t != [] && |t| <= |s| && s[..|t|] != t && -1 <= r
    requires IsLocation(s[1..], t, r >= 0, if r >= 0 then r else 0)
    ensures IsLocation(s, t, r >= 0, if r >= 0 then r + 1 else 0)
  {
    forall j | 0 < j <= |s| ensures OccursAt(s, t, j) <==> OccursAt(s[1..], t, j - 1) {
      SliceOfTail(s, j, |t|);
    }
    assert !OccursAt(s, t, 0);
    forall j | 0 < j <= |s| && (r < 0 || j < r + 1) ensures !OccursAt(s, t, j) {
      assert !OccursAt(s[1..], t, j - 1);
    }
  }

  lemma LocationUnique(s: seq<Byte>, t: seq<Byte>, found: bool, index: nat)
    requires t != [] && IsLocation(s, t, found, index)
    ensures Locate(s, t) == if found then index else -1
  {
    var r := Locate(s, t);
    assert found ==> OccursAt(s, t, index);
  }

  /** `s` cut at the first `t`: what is in front of it and what is behind. */
  function Split(s: seq<Byte>, t: seq<Byte>): (seq<Byte>, seq<Byte>)
    requires t != []
  {
    var i := Locate(s, t);
    if i < 0 then (s, []) else (s[..i], s[i + |t|..])
  }

  /** `str_split_text`: `src` keeps its left part. */
  method SplitText(src: seq<Byte>, text: seq<Byte>) returns (lhs: seq<Byte>, rhs: seq<Byte>)
    requires text != []
    ensures (lhs, rhs) == Split(src, text)
  {
    var found, index := LocateText(src, text);
    LocationUnique(src, text, found, index);
    if !found { return src, []; }
    return src[..index], src[index + |text|..];
  }

  /** `from` replaced by `to`, left to right, wherever it occurs. */
  function ReplaceAll(s: seq<Byte>, from: seq<Byte>, to: seq<Byte>): seq<Byte>
    requires from != []
    decreases |s|
  {
    var i := Locate(s, from);
    if i < 0 then s else s[..i] + to + ReplaceAll(s[i + |from|..], from, to)
  }

  /** `str_replace_text`: the loop ends when nothing is left of the last split. */
  method ReplaceText(str: seq<Byte>, from: seq<Byte>, to: seq<Byte>) returns (r: seq<Byte>)
    requires from != []
    ensures r == ReplaceAll(str, from, to)
  {
    var chunk := str;
    r := [];
    ghost var whole := ReplaceAll(str, from, to);
    var again := true;
    while again
      invariant again ==> r + ReplaceAll(chunk, from, to) == whole
      invariant !again ==> r == whole
      decreases again, |chunk|
    {
      var len := |chunk|;
      ghost var before := r;
      var lhs, rhs := SplitText(chunk, from);
      r := r + lhs;
      if |lhs| < len {
        r := r + to;
        SameTail(before, lhs, to, ReplaceAll(rhs, from, to));
      }
      NothingToReplace(from, to);
      chunk := rhs;
      again := chunk != [];
    }
  }

  lemma SameTail(a: seq<Byte>, b: seq<Byte>, c: seq<Byte>, d: seq<Byte>)
    ensures a + (b + c + d) == a + b + c + d
  {
  }

  lemma NothingToReplace(from: seq<Byte>, to: seq<Byte>)
    requires from != []
    ensures ReplaceAll([], from, to) == []
  {
  }

  /** `str_replace_char`. */
  method ReplaceCharIn(s: seq<Byte>, from: Byte, to: Byte) returns (r: seq<Byte>)
    ensures r == ReplaceChar(s, from, to)
  {
    r := s;
    for i := 0 to |s|
      invariant |r| == |s| && forall j :: i <= j < |s| ==> r[j] == s[j]
      invariant forall j :: 0 <= j < i ==> r[j] == if s[j] == from then to else s[j]
    {
      if r[i] == from { r := r[i := to]; }
    }
  }

  function ReplaceChar(s: seq<Byte>, from: Byte, to: Byte): (r: seq<Byte>)
    ensures |r| == |s| && forall i :: 0 <= i < |s| ==> r[i] == if s[i] == from then to else s[i]
  {
    seq(|s|, i requires 0 <= i < |s| => if s[i] == from then to else s[i])
  }

  // ----- doubling a byte, and undoing it

  /** `s` with every `c` written twice. */
  function Doubled(s: seq<Byte>, c: Byte): seq<Byte> {
    if s == [] then [] else (if s[0] == c then [c, c] else [s[0]]) + Doubled(s[1..], c)
  }

  /** Reading it back: two `c` stand for one. */
  function Undoubled(s: seq<Byte>, c: Byte): seq<Byte> {
    if s == [] then []
    else if |s| > 1 && s[0] == c && s[1] == c then [c] + Undoubled(s[2..], c)
    else [s[0]] + Undoubled(s[1..], c)
  }

  lemma {:induction false} ReplaceAllDoubles(s: seq<Byte>, c: Byte)
    ensures ReplaceAll(s, [c], [c, c]) == Doubled(s, c)
    decreases |s|
  {
    var i := Locate(s, [c]);
    NoByteBefore(s, c, if i < 0 then |s| else i);
    if i < 0 {
      NothingDoubled(s, c);
    } else {
      assert s[i..i + 1] == [s[i]];
      ReplaceAllDoubles(s[i + 1..], c);
      DoubledAt(s, i, c);
    }
  }

  lemma NoByteBefore(s: seq<Byte>, c: Byte, n: nat)
    requires n <= |s| && forall j :: 0 <= j < n ==> !OccursAt(s, [c], j)
    ensures forall j :: 0 <= j < n ==> s[j] != c
  {
    forall j | 0 <= j < n ensures s[j] != c {
      assert s[j..j + 1] == [s[j]];
      assert !OccursAt(s, [c], j);
    }
  }

  /** Doubling, seen from the first `c`. */
  lemma {:induction false} DoubledAt(s: seq<Byte>, i: nat, c: Byte)
    requires i < |s| && s[i] == c && forall j :: 0 <= j < i ==> s[j] != c
    ensures Doubled(s, c) == s[..i] + [c, c] + Doubled(s[i + 1..], c)
  {
    if i > 0 {
      var t := s[1..];
      DoubledAt(t, i - 1, c);
      assert t[i..] == s[i + 1..];
      SameTail([s[0]], t[..i - 1], [c, c], Doubled(s[i + 1..], c));
      assert [s[0]] + t[..i - 1] == s[..i];
    }
  }

  lemma {:induction false} NothingDoubled(s: seq<Byte>, c: Byte)
    requires forall j :: 0 <= j < |s| ==> s[j] != c
    ensures Doubled(s, c) == s
  {
    if s != [] { NothingDoubled(s[1..], c); }
  }

  lemma {:induction false} UndoubleDouble(s: seq<Byte>, c: Byte)
    ensures Undoubled(Doubled(s, c), c) == s
  {
    if s != [] {
      UndoubleDouble(s[1..], c);
      var rest := Doubled(s[1..], c);
      if s[0] == c {
        assert ([c, c] + rest)[2..] == rest;
      } else {
        assert ([s[0]] + rest)[1..] == rest;
      }
    }
  }
}
