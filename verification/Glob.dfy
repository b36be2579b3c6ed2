/**
Matching a file name against a filter (`vsf_filename_passes_filter` in `ls.c`), from the
normalised name on. The loop takes the filter apart token by token and is greedy after a `*`.
It is sound: what it accepts matches. It is not complete, because the greed is never undone;
`GlobExact` says for which filters it is.
*/
module Glob {
  import opened Common
  import opened Str

  const STAR: Byte := 42
  const QUESTION: Byte := 63
  const OPEN_BRACE: Byte := 123
  const CLOSE_BRACE: Byte := 125
  const SPECIALS: seq<Byte> := [STAR, QUESTION, OPEN_BRACE]
  const MATCHITERS_MAX: nat := 1000

  // ----- what a filter means

  /** The usual meaning: `*` stands for any text, `?` for any byte, all else for itself. */
  ghost predicate Globs(f: seq<Byte>, n: seq<Byte>)
    decreases |f| + |n|
  {
    if f == [] then n == []
    else if f[0] == STAR then Globs(f[1..], n) || (n != [] && Globs(f, n[1..]))
    else n != [] && (f[0] == QUESTION || f[0] == n[0]) && Globs(f[1..], n[1..])
  }

  // ----- the matcher

  /** Where the first special byte is, or the length. */
  function FirstSpecial(f: seq<Byte>): (i: nat)
    ensures i <= |f| && (forall j :: 0 <= j < i ==> f[j] !in SPECIALS) && (i < |f| ==> f[i] in SPECIALS)
  {
    if f == [] || f[0] in SPECIALS then 0 else 1 + FirstSpecial(f[1..])
  }

  lemma {:induction false} FirstSpecialIs(f: seq<Byte>, i: nat)
    requires i <= |f| && (forall j :: 0 <= j < i ==> f[j] !in SPECIALS) && (i < |f| ==> f[i] in SPECIALS)
    ensures FirstSpecial(f) == i
  {
    if f != [] && f[0] !in SPECIALS {
      FirstSpecialIs(f[1..], i - 1);
    }
  }

  /** The string that a C function sees: up to the first NUL. */
  function CText(s: seq<Byte>): (t: seq<Byte>)
    ensures 0 !in s ==> t == s
  {
    if s == [] || s[0] == 0 then [] else [s[0]] + CText(s[1..])
  }

  /** `str_locate_str`: -1 if not found. */
  function Find(s: seq<Byte>, look: seq<Byte>): (i: int)
    ensures i >= -1
  {
    if CText(look) == [] then -1 else Locate(s, CText(look))
  }

  /** Without a NUL in it, a text is found at its first occurrence if it has one. */
  lemma FindIsFirst(s: seq<Byte>, look: seq<Byte>)
    requires look != [] && 0 !in look
    ensures var i := Find(s, look);
      if i >= 0 then OccursAt(s, look, i) && forall j :: 0 <= j < i ==> !OccursAt(s, look, j)
      else forall j :: 0 <= j <= |s| ==> !OccursAt(s, look, j)
  {
    assert CText(look) == look;
  }

  /** From an occurrence of `needle` at `i` on to the last one of a chain of occurrences, each
      the first behind the one before; -1 if the end of the string is overrun. */
  function Greedy(n: seq<Byte>, needle: seq<Byte>, i: nat): int
    requires needle != []
    decreases |n| - i
  {
    if i + |needle| > |n| then -1
    else
      var next := Find(n[i + |needle|..], needle);
      if next < 0 then i else Greedy(n, needle, i + |needle| + next)
  }

  datatype Chopped = Miss | Overrun | Left(rest: seq<Byte>)

  /** What is left of the name after the text in front of a token. */
  function Chop(n: seq<Byte>, needle: seq<Byte>, must: bool): Chopped {
    if needle == [] then Left(n)
    else
      var first := Find(n, needle);
      if first < 0 || (must && first > 0) then Miss
      else
        var i := if must then first else Greedy(n, needle, first);
        if i < 0 || i + |needle| > |n| then Overrun else Left(n[i + |needle|..])
  }

  /** `Trap` is a call to `bug` in a string function; `Braces` a list of alternatives, which
      is not part of this model. */
  datatype Verdict = Accept | Refuse | Trap | Braces

  /** Where a turn of the loop leads to: a verdict, or the rests of the filter and of the name,
      whether the name must match where it begins, and the token. */
  datatype Turned = Stop(verdict: Verdict) | Go(filter: seq<Byte>, name: seq<Byte>, must: bool, token: Byte)

  /** What a token asks of the name behind the text in front of it. */
  function AfterText(token: Byte, rest: seq<Byte>, n: seq<Byte>): Turned {
    if token == QUESTION then (if n == [] then Stop(Refuse) else Go(rest, n[1..], true, token))
    else if token == OPEN_BRACE then
      if CLOSE_BRACE in rest then Stop(Braces)
      else if n == [] || n[0] != OPEN_BRACE then Stop(Refuse)
      else Go(rest, n[1..], true, token)
    else Go(rest, n, false, token)
  }

  function Turn(f: seq<Byte>, n: seq<Byte>, must: bool): (r: Turned)
    requires f != []
    ensures r.Go? ==> |r.filter| < |f|
  {
    var t := FirstSpecial(f);
    match Chop(n, f[..t], must)
    case Miss => Stop(Refuse)
    case Overrun => Stop(Trap)
    case Left(n') => if t < |f| then AfterText(f[t], f[t + 1..], n') else AfterText(0, [], n')
  }

  /** The rest of the loop, with `k` turns taken, and what follows it. */
  function Run(f: seq<Byte>, n: seq<Byte>, must: bool, last: Byte, k: nat): Verdict
    decreases |f|
  {
    if f == [] || k >= MATCHITERS_MAX then
      if |n| > 0 && last != STAR then Refuse else if k == MATCHITERS_MAX then Refuse else Accept
    else
      match Turn(f, n, must)
      case Stop(v) => v
      case Go(f', n', must', token) => Run(f', n', must', token, k + 1)
  }

  /** The verdict on a name, with `iters` turns taken before (by filters tried earlier). */
  function Passes(filter: seq<Byte>, name: seq<Byte>, iters: nat): Verdict {
    Run(filter, name, true, 0, iters)
  }

  /** The chain of occurrences, as the inner loop finds it. */
  method Advance(n: seq<Byte>, needle: seq<Byte>, first: nat) returns (i: int)
    requires needle != []
    ensures i == Greedy(n, needle, first)
  {
    i := first;
    if i + |needle| > |n| { return -1; }
    var scanFwd := n[i + |needle|..];
    var next := Look(scanFwd, needle);
    while next >= 0
      invariant 0 <= i && i + |needle| <= |n| && scanFwd == n[i + |needle|..] && next == Find(scanFwd, needle)
      invariant Greedy(n, needle, first) == Greedy(n, needle, i)
      decreases |n| - i
    {
      i := i + next + |needle|;
      if next + |needle| > |scanFwd| { return -1; }
      scanFwd := scanFwd[next + |needle|..];
      next := Look(scanFwd, needle);
    }
  }

  /** `str_locate_str`. */
  method Look(s: seq<Byte>, look: seq<Byte>) returns (i: int)
    ensures i == Find(s, look)
  {
    var found, index := LocateText(s, CText(look));
    if CText(look) != [] { LocationUnique(s, CText(look), found, index); }
    return if found then index else -1;
  }

  /** Taking the text in front of a token out of the name. */
  method Match(nameRemain: seq<Byte>, needed: seq<Byte>, mustMatch: bool) returns (c: Chopped)
    ensures c == Chop(nameRemain, needed, mustMatch)
  {
    if needed == [] { return Left(nameRemain); }
    var i := Look(nameRemain, needed);
    if i < 0 { return Miss; }
    if mustMatch && i > 0 { return Miss; }
    if !mustMatch { i := Advance(nameRemain, needed, i); }
    if i < 0 || i + |needed| > |nameRemain| { return Overrun; }
    return Left(nameRemain[i + |needed|..]);
  }

  /** The body of the matching loop. */
  method OneTurn(filterRemain: seq<Byte>, nameRemain: seq<Byte>, mustMatch: bool) returns (r: Turned)
    requires filterRemain != []
    ensures r == Turn(filterRemain, nameRemain, mustMatch)
  {
    var found, index := LocateChars(filterRemain, SPECIALS);
    FirstSpecialIs(filterRemain, if found then index else |filterRemain|);
    var needed, lastToken: Byte, rest := filterRemain, 0, [];
    if found {
      needed, lastToken, rest := filterRemain[..index], filterRemain[index], filterRemain[index + 1..];
    }
    assert !found ==> filterRemain[..|filterRemain|] == filterRemain;
    var c := Match(nameRemain, needed, mustMatch);
    if c.Miss? { return Stop(Refuse); }
    if c.Overrun? { return Stop(Trap); }
    if lastToken == QUESTION {
      if c.rest == [] { return Stop(Refuse); }
      return Go(rest, c.rest[1..], true, lastToken);
    } else if lastToken == OPEN_BRACE {
      if CLOSE_BRACE in rest { return Stop(Braces); }
      if c.rest == [] || c.rest[0] != OPEN_BRACE { return Stop(Refuse); }
      return Go(rest, c.rest[1..], true, lastToken);
    }
    return Go(rest, c.rest, false, lastToken);
  }

  /** The matching loop. */
  method PassesFilter(filter: seq<Byte>, name: seq<Byte>, iters0: nat) returns (v: Verdict, iters: nat)
    requires iters0 <= MATCHITERS_MAX
    ensures v == Passes(filter, name, iters0)
    ensures iters0 <= iters <= MATCHITERS_MAX
  {
    hide Turn;
    var filterRemain, nameRemain := filter, name;
    var lastToken: Byte, mustMatch := 0, true;
    iters := iters0;
    while filterRemain != [] && iters < MATCHITERS_MAX
      invariant Passes(filter, name, iters0) == Run(filterRemain, nameRemain, mustMatch, lastToken, iters)
      invariant iters0 <= iters <= MATCHITERS_MAX
      decreases |filterRemain|
    {
      var r := OneTurn(filterRemain, nameRemain, mustMatch);
      iters := iters + 1;
      if r.Stop? { return r.verdict, iters; }
      filterRemain, nameRemain, mustMatch, lastToken := r.filter, r.name, r.must, r.token;
    }
    if |nameRemain| > 0 && lastToken != STAR { return Refuse, iters; }
    v := Accept;
    if iters == MATCHITERS_MAX { v := Refuse; }
  }

  // ----- soundness

  /** A complete list of alternatives. */
  ghost predicate HasBraces(f: seq<Byte>) {
    exists i, j :: 0 <= i < j < |f| && f[i] == OPEN_BRACE && f[j] == CLOSE_BRACE
  }

  /** What the rest of the filter asks of the rest of the name: after a `*`, somewhere in it. */
  ghost predicate Fits(f: seq<Byte>, n: seq<Byte>, must: bool) {
    if must then Globs(f, n) else Globs([STAR] + f, n)
  }

  lemma {:induction false} StarSkips(g: seq<Byte>, pre: seq<Byte>, n: seq<Byte>)
    requires Globs(g, n)
    ensures Globs([STAR] + g, pre + n)
  {
    var f := [STAR] + g;
    assert f[1..] == g;
    if pre == [] {
      assert pre + n == n;
    } else {
      StarSkips(g, pre[1..], n);
      assert (pre + n)[1..] == pre[1..] + n;
    }
  }

  lemma {:induction false} TextMatchesItself(text: seq<Byte>, g: seq<Byte>, n: seq<Byte>)
    requires STAR !in text && Globs(g, n)
    ensures Globs(text + g, text + n)
  {
    if text == [] {
      assert text + g == g && text + n == n;
    } else {
      TextMatchesItself(text[1..], g, n);
      assert (text + g)[1..] == text[1..] + g && (text + n)[1..] == text[1..] + n;
    }
  }

  /** The chain ends at an occurrence, and does not overrun when there is no NUL in it. */
  lemma {:induction false} GreedyFinds(n: seq<Byte>, needle: seq<Byte>, i: nat)
    requires needle != [] && 0 !in needle && OccursAt(n, needle, i)
    ensures i <= Greedy(n, needle, i) && OccursAt(n, needle, Greedy(n, needle, i))
    decreases |n| - i
  {
    hide Find, Locate;
    var from := i + |needle|;
    var next := Find(n[from..], needle);
    FindIsFirst(n[from..], needle);
    if next >= 0 {
      assert n[from..][next..next + |needle|] == n[from + next..from + next + |needle|];
      GreedyFinds(n, needle, from + next);
    }
  }

  lemma CutOut(n: seq<Byte>, needle: seq<Byte>, i: nat)
    requires OccursAt(n, needle, i)
    ensures n == n[..i] + (needle + n[i + |needle|..])
  {
  }

  /** The name is the text in front of the token, behind anything at all after a `*`. */
  lemma ChopSplits(n: seq<Byte>, needle: seq<Byte>, must: bool) returns (pre: seq<Byte>)
    requires 0 !in needle && !Chop(n, needle, must).Miss?
    ensures Chop(n, needle, must).Left? && n == pre + (needle + Chop(n, needle, must).rest)
    ensures must ==> pre == []
  {
    if needle == [] {
      assert n == [] + (needle + n);
      return [];
    }
    var i := ChopAt(n, needle, must);
    hide *;
    CutOut(n, needle, i);
    return n[..i];
  }

  lemma ChopAt(n: seq<Byte>, needle: seq<Byte>, must: bool) returns (i: nat)
    requires needle != [] && 0 !in needle && !Chop(n, needle, must).Miss?
    ensures i + |needle| <= |n| && OccursAt(n, needle, i) && (must ==> i == 0)
    ensures Chop(n, needle, must) == Left(n[i + |needle|..])
  {
    hide Find, Greedy;
    var first := Find(n, needle);
    FindIsFirst(n, needle);
    GreedyFinds(n, needle, first);
    i := if must then first else Greedy(n, needle, first);
  }

  /** One turn of the loop, backwards. */
  lemma TurnBack(needle: seq<Byte>, g: seq<Byte>, pre: seq<Byte>, n: seq<Byte>, must: bool)
    requires STAR !in needle && Globs(g, n) && (must ==> pre == [])
    ensures Fits(needle + g, pre + (needle + n), must)
  {
    TextMatchesItself(needle, g, n);
    if must { assert pre + (needle + n) == needle + n; } else { StarSkips(needle + g, pre, needle + n); }
  }

  lemma {:induction false} StarTakesAll(n: seq<Byte>)
    ensures Globs([STAR], n)
  {
    if n != [] { StarTakesAll(n[1..]); }
  }

  lemma NoBracesInTail(f: seq<Byte>, t: nat)
    requires !HasBraces(f) && t < |f|
    ensures !HasBraces(f[t + 1..])
    ensures f[t] == OPEN_BRACE ==> CLOSE_BRACE !in f[t + 1..]
  {
    var g := f[t + 1..];
    forall i, j | 0 <= i < j < |g| ensures !(g[i] == OPEN_BRACE && g[j] == CLOSE_BRACE) {
      assert g[i] == f[t + 1 + i] && g[j] == f[t + 1 + j];
    }
    forall j | 0 <= j < |g| ensures f[t] == OPEN_BRACE ==> g[j] != CLOSE_BRACE {
      assert g[j] == f[t + 1 + j];
    }
  }

  /** The last turn, when no token is left: the name must be used up. */
  lemma TextTurn(f: seq<Byte>, n: seq<Byte>, must: bool, pre: seq<Byte>, n': seq<Byte>)
    requires STAR !in f && n == pre + (f + n') && (must ==> pre == [])
    ensures n' == [] ==> Fits(f, n, must)
  {
    assert f + [] == f;
    TurnBack(f, [], pre, [], must);
  }

  lemma StarTurn(needle: seq<Byte>, rest: seq<Byte>, pre: seq<Byte>, n': seq<Byte>, must: bool)
    requires STAR !in needle && (must ==> pre == []) && (rest != [] ==> Fits(rest, n', false))
    ensures Fits(needle + ([STAR] + rest), pre + (needle + n'), must)
  {
    if rest == [] {
      StarTakesAll(n');
      assert [STAR] + rest == [STAR];
    }
    TurnBack(needle, [STAR] + rest, pre, n', must);
  }

  lemma ByteTurn(needle: seq<Byte>, b: Byte, rest: seq<Byte>, pre: seq<Byte>, n': seq<Byte>, must: bool)
    requires STAR !in needle && (must ==> pre == []) && n' != [] && b != STAR && (b == QUESTION || b == n'[0])
    requires Globs(rest, n'[1..])
    ensures Fits(needle + ([b] + rest), pre + (needle + n'), must)
  {
    assert ([b] + rest)[1..] == rest;
    TurnBack(needle, [b] + rest, pre, n', must);
  }

  /** What is left after a turn can still be accepted. */
  ghost predicate Hopeful(f: seq<Byte>, n: seq<Byte>, must: bool, last: Byte) {
    if f == [] then n == [] || last == STAR else Fits(f, n, must)
  }

  /** A turn gives up nothing that would not match, and does not trap. */
  lemma TurnIsSound(f: seq<Byte>, n: seq<Byte>, must: bool)
    requires f != [] && 0 !in f && !HasBraces(f)
    ensures var r := Turn(f, n, must);
      if r.Stop? then r.verdict == Refuse
      else 0 !in r.filter && !HasBraces(r.filter) && (Hopeful(r.filter, r.name, r.must, r.token) ==> Fits(f, n, must))
  {
    hide Chop, Globs, Fits, FirstSpecial;
    var t := FirstSpecial(f);
    var c := Chop(n, f[..t], must);
    if c.Miss? { return; }
    var pre := ChopSplits(n, f[..t], must);
    if t == |f| {
      assert f[..t] == f;
      TextTurn(f, n, must, pre, c.rest);
    } else {
      NoBracesInTail(f, t);
      TokenTurn(f, t, pre, c.rest, must);
    }
  }

  lemma TokenTurn(f: seq<Byte>, t: nat, pre: seq<Byte>, n': seq<Byte>, must: bool)
    requires t < |f| && f[t] in SPECIALS && STAR !in f[..t] && (must ==> pre == [])
    ensures var r := AfterText(f[t], f[t + 1..], n');
      r.Go? && Hopeful(r.filter, r.name, r.must, r.token) ==> Fits(f, pre + (f[..t] + n'), must)
  {
    hide Globs;
    var needle, rest := f[..t], f[t + 1..];
    var r := AfterText(f[t], rest, n');
    assert f == needle + ([f[t]] + rest);
    if r.Go? && Hopeful(r.filter, r.name, r.must, r.token) {
      if f[t] == STAR {
        StarTurn(needle, rest, pre, n', must);
      } else {
        EmptyMatchesEmpty();
        ByteTurn(needle, f[t], rest, pre, n', must);
      }
    }
  }

  lemma EmptyMatchesEmpty()
    ensures Globs([], [])
  {
  }

  /** Whatever the loop accepts matches; without a NUL in the filter it never traps, and when
      the turns have run out it does not accept. */
  lemma {:induction false} RunIsSound(f: seq<Byte>, n: seq<Byte>, must: bool, last: Byte, k: nat)
    requires 0 !in f && !HasBraces(f) && k <= MATCHITERS_MAX
    ensures Run(f, n, must, last, k) in {Accept, Refuse}
    ensures Run(f, n, must, last, k) == Accept ==> k < MATCHITERS_MAX && Hopeful(f, n, must, last)
    decreases |f|
  {
    hide Turn, Fits, HasBraces;
    if f != [] && k < MATCHITERS_MAX {
      TurnIsSound(f, n, must);
      var r := Turn(f, n, must);
      if r.Go? { RunIsSound(r.filter, r.name, r.must, r.token, k + 1); }
    }
  }

  /** Soundness: for every filter without a list of alternatives and without a NUL, and every
      name, the matcher accepts only names that match, and only within its turns. */
  lemma AcceptedNamesMatch(filter: seq<Byte>, name: seq<Byte>, iters: nat)
    requires 0 !in filter && !HasBraces(filter) && iters <= MATCHITERS_MAX
    ensures Passes(filter, name, iters) in {Accept, Refuse}
    ensures Passes(filter, name, iters) == Accept ==> iters < MATCHITERS_MAX && Globs(filter, name)
  {
    RunIsSound(filter, name, true, 0, iters);
  }

  // ----- completeness

  /** The turns that a filter takes: one for each special byte and one for a text at its end. */
  function Turns(f: seq<Byte>): nat
    decreases |f|
  {
    if f == [] then 0
    else
      var t := FirstSpecial(f);
      if t == |f| then 1 else 1 + Turns(f[t + 1..])
  }

  lemma TurnTakesOne(f: seq<Byte>, n: seq<Byte>, must: bool)
    requires f != []
    ensures Turn(f, n, must).Go? ==> Turns(f) == 1 + Turns(Turn(f, n, must).filter)
  {
    hide Chop, FirstSpecial;
  }

  lemma RunTurns(f: seq<Byte>, n: seq<Byte>, must: bool, last: Byte, k: nat)
    requires f != [] && k < MATCHITERS_MAX
    ensures var r := Turn(f, n, must);
      Run(f, n, must, last, k) == if r.Stop? then r.verdict else Run(r.filter, r.name, r.must, r.token, k + 1)
  {
    hide Turn;
  }

  /** When the turns have run out the name is refused. */
  lemma FullTurnsRefuse(f: seq<Byte>, n: seq<Byte>, must: bool, last: Byte)
    ensures Run(f, n, must, last, MATCHITERS_MAX) == Refuse
  {
  }

  lemma TurnDoesNotAccept(f: seq<Byte>, n: seq<Byte>, must: bool)
    requires f != []
    ensures Turn(f, n, must) != Stop(Accept)
  {
    hide Chop, FirstSpecial;
  }

  lemma {:induction false} AcceptsWithinTurns(f: seq<Byte>, n: seq<Byte>, must: bool, last: Byte, k: nat)
    requires k <= MATCHITERS_MAX && Run(f, n, must, last, k) == Accept
    ensures k + Turns(f) < MATCHITERS_MAX
    decreases |f|
  {
    FullTurnsRefuse(f, n, must, last);
    hide Run, Turn;
    if f != [] {
      hide Turns;
      RunTurns(f, n, must, last, k);
      TurnTakesOne(f, n, must);
      TurnDoesNotAccept(f, n, must);
      var r := Turn(f, n, must);
      AcceptsWithinTurns(r.filter, r.name, r.must, r.token, k + 1);
    }
  }

  /** `p`, which has no `*`, matches the beginning of `n`. */
  ghost predicate Starts(p: seq<Byte>, n: seq<Byte>) {
    |p| <= |n| && forall i :: 0 <= i < |p| ==> p[i] == QUESTION || p[i] == n[i]
  }

  lemma {:induction false} GlobsPrefix(p: seq<Byte>, g: seq<Byte>, n: seq<Byte>)
    requires STAR !in p
    ensures Globs(p + g, n) <==> Starts(p, n) && Globs(g, n[|p|..])
  {
    if p == [] {
      assert p + g == g && n[0..] == n;
    } else {
      assert (p + g)[1..] == p[1..] + g;
      if n != [] {
        GlobsPrefix(p[1..], g, n[1..]);
        if |p| <= |n| { assert n[1..][|p| - 1..] == n[|p|..]; }
        assert Starts(p, n) <==> (p[0] == QUESTION || p[0] == n[0]) && Starts(p[1..], n[1..]) by {
          assert forall i :: 0 < i < |p| ==> p[i] == p[1..][i - 1];
          assert forall i :: 0 < i < |n| ==> n[i] == n[1..][i - 1];
        }
      }
    }
  }

  /** A text: it stands for itself. */
  predicate Plain(s: seq<Byte>) {
    0 !in s && forall i :: 0 <= i < |s| ==> s[i] !in SPECIALS
  }

  /** At the place where it must match, a text is taken out if and only if it is there. */
  lemma ChopAtStart(n: seq<Byte>, needle: seq<Byte>)
    requires 0 !in needle
    ensures Chop(n, needle, true) == if needle <= n then Left(n[|needle|..]) else Miss
  {
    if needle != [] {
      hide Find;
      FindIsFirst(n, needle);
      var first := Find(n, needle);
      assert OccursAt(n, needle, 0) <==> needle <= n;
    }
  }

  /** The bytes that the matcher takes one at a time: `?`, and `{` without its `}`. */
  predicate Single(b: Byte) {
    b == QUESTION || b == OPEN_BRACE
  }

  function Singles(p: seq<Byte>): nat {
    if p == [] then 0 else (if Single(p[0]) then 1 else 0) + Singles(p[1..])
  }

  /** The part of a filter in front of its first `*`. */
  predicate Head(p: seq<Byte>) {
    0 !in p && STAR !in p
  }

  lemma {:induction false} NoSingles(p: seq<Byte>)
    requires Plain(p)
    ensures Singles(p) == 0
  {
    if p != [] { NoSingles(p[1..]); }
  }

  lemma {:induction false} SinglesAt(p: seq<Byte>, q: nat)
    requires q < |p| && Single(p[q]) && Plain(p[..q])
    ensures Singles(p) == 1 + Singles(p[q + 1..])
  {
    if q > 0 {
      assert p[0] == p[..q][0];
      assert p[1..][..q - 1] == p[..q][1..];
      SinglesAt(p[1..], q - 1);
      assert p[1..][q..] == p[q + 1..];
    }
  }

  lemma FirstSingle(p: seq<Byte>) returns (q: nat)
    requires Head(p) && !Plain(p)
    ensures q < |p| && Single(p[q]) && Plain(p[..q])
  {
    q := FirstSpecial(p);
  }

  /** The bytes agree. */
  predicate Agree(b: Byte, c: Byte) {
    b == QUESTION || b == c
  }

  /** What the first single byte of a filter asks of the name. */
  lemma SingleAsks(f: seq<Byte>, n: seq<Byte>)
    requires f != [] && Single(f[0]) && !HasBraces(f)
    ensures AfterText(f[0], f[1..], n) ==
      if n != [] && Agree(f[0], n[0]) then Go(f[1..], n[1..], true, f[0]) else Stop(Refuse)
  {
    NoBracesInTail(f, 0);
  }

  /** The turn for the first single byte, at `q`. */
  lemma SingleTurn(f: seq<Byte>, n: seq<Byte>, q: nat)
    requires q < |f| && Single(f[q]) && Plain(f[..q]) && !HasBraces(f)
    ensures Turn(f, n, true) ==
      if f[..q] <= n && q < |n| && Agree(f[q], n[q]) then Go(f[q + 1..], n[q + 1..], true, f[q]) else Stop(Refuse)
  {
    forall j | 0 <= j < q ensures f[j] !in SPECIALS { assert f[j] == f[..q][j]; }
    FirstSpecialIs(f, q);
    NoBracesInTail(f, q);
    hide Chop, HasBraces;
    ChopAtStart(n, f[..q]);
    if f[..q] <= n && q < |n| { assert n[q..][1..] == n[q + 1..] && n[q..][0] == n[q]; }
  }

  lemma StartsSplit(p: seq<Byte>, n: seq<Byte>, q: nat)
    requires q < |p| && Plain(p[..q])
    ensures Starts(p, n) <==> p[..q] <= n && q < |n| && Agree(p[q], n[q]) && Starts(p[q + 1..], n[q + 1..])
  {
    var b := p[q + 1..];
    if |p| <= |n| {
      var m := n[q + 1..];
      assert forall i :: 0 <= i < |b| ==> b[i] == p[q + 1 + i] && m[i] == n[q + 1 + i];
      assert forall i :: q < i < |p| ==> p[i] == b[i - q - 1] && n[i] == m[i - q - 1];
      assert forall i :: 0 <= i < q ==> p[i] == p[..q][i];
    }
  }

  lemma TextThenStar(p: seq<Byte>, s: seq<Byte>, n: seq<Byte>)
    requires Plain(p)
    ensures Turn(p + [STAR] + s, n, true) == if Starts(p, n) then Go(s, n[|p|..], false, STAR) else Stop(Refuse)
  {
    hide Chop;
    var f := p + [STAR] + s;
    FirstSpecialIs(f, |p|);
    assert f[..|p|] == p && f[|p|] == STAR && f[|p| + 1..] == s;
    ChopAtStart(n, p);
    assert Starts(p, n) <==> p <= n;
  }

  /** Up to its first `*` a filter is matched at the beginning of the name. */
  lemma {:induction false} HeadRuns(p: seq<Byte>, s: seq<Byte>, n: seq<Byte>, last: Byte, k: nat)
    requires Head(p) && !HasBraces(p + [STAR] + s) && k + Singles(p) < MATCHITERS_MAX
    ensures var v := Run(p + [STAR] + s, n, true, last, k);
      if Starts(p, n) then v == Run(s, n[|p|..], false, STAR, k + Singles(p) + 1) else v == Refuse
    decreases |p|
  {
    hide Run, Turn, HasBraces;
    var f := p + [STAR] + s;
    RunTurns(f, n, true, last, k);
    if Plain(p) {
      NoSingles(p);
      TextThenStar(p, s, n);
    } else {
      var q := FirstSingle(p);
      HeadSplit(p, s, q);
      SingleTurn(f, n, q);
      NoBracesInTail(f, q);
      StartsSplit(p, n, q);
      SinglesAt(p, q);
      hide Starts, Plain;
      if p[..q] <= n && q < |n| && Agree(p[q], n[q]) {
        HeadRuns(p[q + 1..], s, n[q + 1..], p[q], k + 1);
        if |p| <= |n| { assert n[q + 1..][|p| - q - 1..] == n[|p|..]; }
      }
    }
  }

  lemma HeadSplit(p: seq<Byte>, s: seq<Byte>, q: nat)
    requires q < |p|
    ensures var f := p + [STAR] + s; f[q] == p[q] && f[..q] == p[..q] && f[q + 1..] == p[q + 1..] + [STAR] + s
  {
  }

  /** No text in front of `s` that is also at its end, other than `s` itself. */
  ghost predicate Borderless(s: seq<Byte>) {
    forall b :: 0 < b < |s| ==> s[..b] != s[|s| - b..]
  }

  lemma OverlapIsBorder(n: seq<Byte>, s: seq<Byte>, i: nat, j: nat)
    requires OccursAt(n, s, i) && OccursAt(n, s, j) && i < j < i + |s|
    ensures var b := i + |s| - j; s[..b] == s[|s| - b..]
  {
    var b := i + |s| - j;
    assert s[..b] == n[j..j + |s|][..b] == n[j..j + b];
    assert s[|s| - b..] == n[i..i + |s|][|s| - b..] == n[j..j + b];
  }

  /** An occurrence of `s` in the part of `n` from `from` on. */
  lemma OccursInRest(n: seq<Byte>, s: seq<Byte>, from: nat, j: nat)
    requires from <= j && from <= |n|
    ensures OccursAt(n[from..], s, j - from) <==> OccursAt(n, s, j)
  {
    if j + |s| <= |n| { assert n[from..][j - from..j - from + |s|] == n[j..j + |s|]; }
  }

  /** If `s` occurs again at `j`, behind the occurrence at `i`, then the chain goes on, and not
      beyond `j`. */
  lemma ChainGoesOn(n: seq<Byte>, s: seq<Byte>, i: nat, j: nat) returns (next: nat)
    requires 0 !in s && s != [] && OccursAt(n, s, j) && i + |s| <= j
    ensures i < next <= j && OccursAt(n, s, next) && Greedy(n, s, i) == Greedy(n, s, next)
  {
    hide *;
    var from := i + |s|;
    var k := NextIn(n, s, from, j);
    GreedyStep(n, s, i, from, k);
    next := from + k;
  }

  lemma NextIn(n: seq<Byte>, s: seq<Byte>, from: nat, j: nat) returns (k: nat)
    requires 0 !in s && s != [] && OccursAt(n, s, j) && from <= j
    ensures from <= |n| && k == Find(n[from..], s) && from + k <= j && OccursAt(n, s, from + k)
  {
    assert j <= |n|;
    hide *;
    OccursInRest(n, s, from, j);
    FindHits(n[from..], s, j - from);
    k := Find(n[from..], s);
    OccursInRest(n, s, from, from + k);
  }

  lemma FindHits(s: seq<Byte>, look: seq<Byte>, j: nat)
    requires look != [] && 0 !in look && OccursAt(s, look, j)
    ensures 0 <= Find(s, look) <= j && OccursAt(s, look, Find(s, look))
  {
    hide Find;
    FindIsFirst(s, look);
  }

  lemma GreedyStep(n: seq<Byte>, s: seq<Byte>, i: nat, from: nat, k: nat)
    requires s != [] && from == i + |s| <= |n| && k == Find(n[from..], s)
    ensures Greedy(n, s, i) == Greedy(n, s, from + k)
  {
    hide Find;
  }

  /** The occurrences of a text without borders do not overlap, so the chain misses none. */
  lemma {:induction false} GreedyReaches(n: seq<Byte>, s: seq<Byte>, i: nat, j: nat)
    requires Plain(s) && s != [] && Borderless(s) && OccursAt(n, s, i) && OccursAt(n, s, j) && i <= j
    ensures Greedy(n, s, i) >= j
    decreases |n| - i
  {
    hide Greedy;
    if i == j {
      GreedyFinds(n, s, i);
    } else {
      if j < i + |s| { OverlapIsBorder(n, s, i, j); }
      var next := ChainGoesOn(n, s, i, j);
      GreedyReaches(n, s, next, j);
    }
  }

  /** The matcher gives the usual verdict on every name. */
  ghost predicate Exact(f: seq<Byte>) {
    forall n: seq<Byte> :: Passes(f, n, 0) == Accept <==> Globs(f, n)
  }

  // ----- an input that shows the limit

  const A: Byte := 97
  const B: Byte := 98

  /** A NUL in the filter hides what is behind it, but not its length: a name that does not match
      is accepted, and a short one trips a check. Filters come from command lines, where NUL has
      been replaced (`ftpcmdio.c`). */
  lemma NulIsUnsound()
    ensures !Globs([A, 0, B], [A, A, A]) && Passes([A, 0, B], [A, A, A], 0) == Accept
    ensures Passes([A, 0, B], [A], 0) == Trap
  {
    var f := [A, 0, B];
    FirstSpecialIs(f, 3);
    assert f[..3] == f;
    assert CText(f) == [A] by { assert f[1..] == [0, B]; }
    assert OccursAt([A, A, A], [A], 0) && OccursAt([A], [A], 0);
    assert Find([A, A, A], f) == 0 && Find([A], f) == 0;
    assert [A, A, A][3..] == [];
    RunTurns(f, [A, A, A], true, 0, 0);
    RunTurns(f, [A], true, 0, 0);
  }
}
