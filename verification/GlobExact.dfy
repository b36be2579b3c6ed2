/**
For which filters the greedy matcher is exact: it accepts all the names that match in the
usual sense, and no others. The condition is read off the filter, piece by piece: the pieces
are what stands between the `*`s.
*/
module GlobExact {
  import opened Common
  import opened Str
  import opened Glob

  /** A filter without complete lists of alternatives; command lines have no NUL in them. */
  ghost predicate Simple(f: seq<Byte>) {
    0 !in f && !HasBraces(f)
  }

  /** A last piece. */
  ghost predicate Piece(h: seq<Byte>) {
    Simple(h) && STAR !in h
  }

  lemma SimpleRest(f: seq<Byte>, i: nat)
    requires Simple(f) && i <= |f|
    ensures Simple(f[i..])
  {
    var g := f[i..];
    forall a, b | 0 <= a < b < |g| ensures !(g[a] == OPEN_BRACE && g[b] == CLOSE_BRACE) {
      assert g[a] == f[i + a] && g[b] == f[i + b];
    }
  }

  /** The text that `h` begins with. */
  function Text(h: seq<Byte>): (t: seq<Byte>)
    ensures t <= h && (0 !in h ==> Plain(t))
  {
    h[..FirstSpecial(h)]
  }

  /** The last `j` bytes of the text `s` could be the first ones of a match of `h`. */
  ghost predicate Overlaps(s: seq<Byte>, h: seq<Byte>, j: int) {
    1 <= j <= |h| && j < |s| && Starts(h[..j], s[|s| - j..])
  }

  /** The text `s` could occur at place `d` of a match of `h`. */
  ghost predicate Inside(s: seq<Byte>, h: seq<Byte>, d: int) {
    0 <= d && d + |s| <= |h| && Starts(h[d..d + |s|], s)
  }

  /** No occurrence of `s` touches a match of `h` behind it. */
  ghost predicate Apart(s: seq<Byte>, h: seq<Byte>) {
    (forall j :: !Overlaps(s, h, j)) && (forall d :: !Inside(s, h, d))
  }

  /** A last piece whose text occurs at its end only where the piece begins. */
  ghost predicate LastExact(h: seq<Byte>) {
    h == [] || (Text(h) != [] && Borderless(Text(h)) && forall d :: d >= 1 ==> !Inside(Text(h), h, d))
  }

  /** Where the first `*` is, or the length. */
  function StarAt(f: seq<Byte>): (i: nat)
    ensures i <= |f| && STAR !in f[..i] && (i < |f| ==> f[i] == STAR)
  {
    if f == [] || f[0] == STAR then 0 else 1 + StarAt(f[1..])
  }

  /** What follows the `*`s at the beginning. */
  function AfterStars(f: seq<Byte>): (r: seq<Byte>)
    ensures r != [] ==> r[0] != STAR
  {
    if f != [] && f[0] == STAR then AfterStars(f[1..]) else f
  }

  predicate AllQuestions(g: seq<Byte>) {
    forall i :: 0 <= i < |g| ==> g[i] == QUESTION
  }

  /** The condition for what follows the first `*`. Pieces of nothing but `?` do no harm at the
      beginning, if another `*` follows. Then there may be a last piece; or a text with a `*`
      behind it, and perhaps a last piece that no occurrence of the text can touch. */
  ghost predicate ExactTail(f: seq<Byte>)
    decreases |f|
  {
    var g := f[..StarAt(f)];
    if StarAt(f) == |f| then LastExact(f)
    else
      var rest := f[StarAt(f) + 1..];
      if AllQuestions(g) then ExactTail(rest)
      else Plain(g) && STAR !in AfterStars(rest) && LastExact(AfterStars(rest)) && Apart(g, AfterStars(rest))
  }

  ghost predicate ExactFilter(f: seq<Byte>) {
    Turns(f) < MATCHITERS_MAX && (StarAt(f) < |f| ==> ExactTail(f[StarAt(f) + 1..]))
  }

  // ----- what filters match

  /** The bytes of a filter other than `*`, a name that it matches. */
  function Spelled(f: seq<Byte>): (n: seq<Byte>) {
    if f == [] then [] else (if f[0] == STAR then [] else [f[0]]) + Spelled(f[1..])
  }

  lemma {:induction false} SpelledConcat(a: seq<Byte>, b: seq<Byte>)
    ensures Spelled(a + b) == Spelled(a) + Spelled(b)
  {
    if a == [] {
      assert a + b == b;
    } else {
      SpelledConcat(a[1..], b);
      assert (a + b)[1..] == a[1..] + b;
      if a[0] == STAR {
        assert Spelled(a) == Spelled(a[1..]) && Spelled(a + b) == Spelled(a[1..] + b);
      } else {
        Associative([a[0]], Spelled(a[1..]), Spelled(b));
      }
    }
  }

  lemma {:induction false} SpelledHead(p: seq<Byte>)
    requires STAR !in p
    ensures Spelled(p) == p
  {
    if p != [] { SpelledHead(p[1..]); }
  }

  lemma {:induction false} MatchesSpelled(f: seq<Byte>)
    ensures Globs(f, Spelled(f))
  {
    if f != [] {
      MatchesSpelled(f[1..]);
      if f[0] != STAR { assert Spelled(f)[1..] == Spelled(f[1..]); } else { assert Spelled(f) == Spelled(f[1..]); }
    }
  }

  lemma {:induction false} MatchesAreLong(f: seq<Byte>, n: seq<Byte>)
    requires Globs(f, n)
    ensures |n| >= |Spelled(f)|
    decreases |f| + |n|
  {
    if f != [] {
      if f[0] != STAR { MatchesAreLong(f[1..], n[1..]); }
      else if Globs(f[1..], n) { MatchesAreLong(f[1..], n); }
      else { MatchesAreLong(f, n[1..]); }
    }
  }

  /** A `*` takes whatever is put in front. */
  lemma {:induction false} StarTakes(f: seq<Byte>, pre: seq<Byte>, n: seq<Byte>)
    requires Globs([STAR] + f, n)
    ensures Globs([STAR] + f, pre + n)
  {
    if pre == [] {
      assert pre + n == n;
    } else {
      StarTakes(f, pre[1..], n);
      assert (pre + n)[1..] == pre[1..] + n;
    }
  }

  /** Behind a star, a piece without stars is somewhere. */
  lemma {:induction false} PieceIsSomewhere(g: seq<Byte>, f: seq<Byte>, n: seq<Byte>) returns (i: nat)
    requires STAR !in g && Globs([STAR] + (g + f), n)
    ensures i + |g| <= |n| && Starts(g, n[i..]) && Globs(f, n[i + |g|..])
    decreases |n|
  {
    assert ([STAR] + (g + f))[1..] == g + f;
    if Globs(g + f, n) {
      GlobsPrefix(g, f, n);
      assert n[0..] == n;
      return 0;
    }
    i := PieceIsSomewhere(g, f, n[1..]);
    assert n[1..][i..] == n[i + 1..] && n[1..][i + |g|..] == n[i + 1 + |g|..];
    i := i + 1;
  }

  /** The name ends with a match of `h`. */
  ghost predicate EndsWith(n: seq<Byte>, h: seq<Byte>) {
    |h| <= |n| && Starts(h, n[|n| - |h|..])
  }

  /** Behind a star, a last piece is at the end. */
  lemma LastPieceAtEnd(h: seq<Byte>, n: seq<Byte>)
    requires STAR !in h && Globs([STAR] + h, n)
    ensures EndsWith(n, h)
  {
    hide Globs, Starts;
    assert h + [] == h;
    var i := PieceIsSomewhere(h, [], n);
    EmptyMatches(n[i + |h|..]);
    assert i == |n| - |h|;
  }

  lemma LastPieceTakes(h: seq<Byte>, x: seq<Byte>, y: seq<Byte>)
    requires STAR !in h && |y| == |h| && Starts(h, y)
    ensures Globs([STAR] + h, x + y)
  {
    hide Globs, Starts;
    assert h + [] == h && y[|h|..] == [];
    EmptyMatches([]);
    GlobsPrefix(h, [], y);
    StarSkips(h, x, y);
  }

  lemma EmptyMatches(n: seq<Byte>)
    ensures Globs([], n) <==> n == []
  {
  }

  /** A star followed by stars is a star. */
  lemma {:induction false} StarsAreOne(f: seq<Byte>, n: seq<Byte>)
    ensures Globs([STAR] + f, n) <==> Globs([STAR] + AfterStars(f), n)
  {
    if f != [] && f[0] == STAR {
      StarsAreOne(f[1..], n);
      assert [STAR] + f[1..] == f;
      TwoStars(f[1..], n);
    }
  }

  lemma {:induction false} TwoStars(f: seq<Byte>, n: seq<Byte>)
    ensures Globs([STAR] + ([STAR] + f), n) <==> Globs([STAR] + f, n)
  {
    var g := [STAR] + f;
    assert ([STAR] + g)[1..] == g;
    if n != [] { TwoStars(f, n[1..]); }
  }

  /** What stands in front of the last star is spelled out, the star takes `x`. */
  lemma LastStarTakes(u: seq<Byte>, x: seq<Byte>, b: seq<Byte>)
    requires STAR !in b
    ensures Globs(u + ([STAR] + b), Spelled(u) + (x + b))
  {
    LastPieceTakes(b, x, b);
    SpellingMatches(u, [STAR] + b, x + b);
  }

  lemma {:induction false} SpellingMatches(u: seq<Byte>, g: seq<Byte>, n: seq<Byte>)
    requires Globs(g, n)
    ensures Globs(u + g, Spelled(u) + n)
  {
    if u == [] {
      assert u + g == g && Spelled(u) + n == n;
    } else {
      SpellingMatches(u[1..], g, n);
      assert (u + g)[1..] == u[1..] + g;
      var m := Spelled(u[1..]) + n;
      if u[0] == STAR {
        assert Spelled(u) == Spelled(u[1..]);
      } else {
        Associative([u[0]], Spelled(u[1..]), n);
        assert ([u[0]] + m)[1..] == m;
      }
    }
  }

  // ----- how the matcher runs

  /** The end of the chain of occurrences of `t`, or -1. */
  function LastPlace(n: seq<Byte>, t: seq<Byte>): (q: int)
    requires t != [] && 0 !in t
    ensures if Find(n, t) < 0 then q == -1 else q >= 0 && OccursAt(n, t, q)
  {
    if Find(n, t) < 0 then -1
    else
      FindIsFirst(n, t);
      GreedyFinds(n, t, Find(n, t));
      Greedy(n, t, Find(n, t))
  }

  lemma OccursSoFound(n: seq<Byte>, t: seq<Byte>, j: nat)
    requires t != [] && 0 !in t && OccursAt(n, t, j)
    ensures LastPlace(n, t) >= 0
  {
    FindHits(n, t, j);
  }

  /** A turn that begins behind a `*` with a text. */
  lemma TextTurn(t: seq<Byte>, f: seq<Byte>, n: seq<Byte>)
    requires Plain(t) && t != [] && (f != [] ==> f[0] in SPECIALS)
    ensures var q := LastPlace(n, t);
      Turn(t + f, n, false) ==
        if q < 0 then Stop(Refuse)
        else if f == [] then Go([], n[q + |t|..], false, 0)
        else AfterText(f[0], f[1..], n[q + |t|..])
  {
    hide Find, Greedy;
    var h := t + f;
    FirstSpecialIs(h, |t|);
    assert h[..|t|] == t;
    if f != [] { assert h[|t|] == f[0] && h[|t| + 1..] == f[1..]; } else { assert h == t; }
  }

  /** A turn that begins behind a `*` with a `?` or another `*`. */
  lemma TokenTurnOnly(f: seq<Byte>, n: seq<Byte>)
    requires f != [] && f[0] in SPECIALS
    ensures Turn(f, n, false) == AfterText(f[0], f[1..], n)
  {
    FirstSpecialIs(f, 0);
    assert f[..0] == [];
  }

  /** A last piece, once its place is fixed, must fit from there to the end. */
  lemma {:induction false} EndRuns(p: seq<Byte>, n: seq<Byte>, last: Byte, k: nat)
    requires Piece(p) && last != STAR && k + Turns(p) < MATCHITERS_MAX
    ensures Run(p, n, true, last, k) == Accept <==> |n| == |p| && Starts(p, n)
    decreases |p|
  {
    hide HasBraces;
    if p == [] {
      EmptyRuns(n, true, last, k);
    } else if Plain(p) {
      EndTextRuns(p, n, last, k);
    } else {
      var q := FirstSingle(p);
      EndSingleRuns(p, n, last, k, q);
      StartsSplit(p, n, q);
      SimpleRest(p, q + 1);
      assert Piece(p[q + 1..]) && p[q] != STAR;
      hide *;
      if p[..q] <= n && q < |n| && Agree(p[q], n[q]) { EndRuns(p[q + 1..], n[q + 1..], p[q], k + 1); }
    }
  }

  lemma EndTextRuns(p: seq<Byte>, n: seq<Byte>, last: Byte, k: nat)
    requires Plain(p) && p != [] && k + Turns(p) < MATCHITERS_MAX
    ensures Run(p, n, true, last, k) == Accept <==> n == p
    ensures |n| == |p| && Starts(p, n) <==> n == p
  {
    TurnsAreMany(p);
    hide Run, Turn, Turns;
    RunTurns(p, n, true, last, k);
    EndText(p, n, k);
    if p <= n { EmptyRuns(n[|p|..], false, 0, k + 1); }
  }

  lemma EndSingleRuns(p: seq<Byte>, n: seq<Byte>, last: Byte, k: nat, q: nat)
    requires Piece(p) && k + Turns(p) < MATCHITERS_MAX && q < |p| && Single(p[q]) && Plain(p[..q])
    ensures Run(p, n, true, last, k) ==
      if p[..q] <= n && q < |n| && Agree(p[q], n[q]) then Run(p[q + 1..], n[q + 1..], true, p[q], k + 1) else Refuse
    ensures k + 1 + Turns(p[q + 1..]) < MATCHITERS_MAX
  {
    TurnsAreMany(p);
    hide Run, Turn, Turns, HasBraces;
    RunTurns(p, n, true, last, k);
    SingleTurn(p, n, q);
    forall j | 0 <= j < q ensures p[j] !in SPECIALS { assert p[j] == p[..q][j]; }
    TurnsAt(p, q);
  }

  lemma EmptyRuns(n: seq<Byte>, must: bool, last: Byte, k: nat)
    requires k < MATCHITERS_MAX
    ensures Run([], n, must, last, k) == Accept <==> n == [] || last == STAR
  {
  }

  lemma TurnsAreMany(f: seq<Byte>)
    ensures f != [] ==> Turns(f) >= 1
  {
  }

  lemma TurnsAt(f: seq<Byte>, q: nat)
    requires q < |f| && f[q] in SPECIALS && forall j :: 0 <= j < q ==> f[j] !in SPECIALS
    ensures Turns(f) == 1 + Turns(f[q + 1..])
  {
    hide FirstSpecial;
    FirstSpecialIs(f, q);
  }

  lemma EndText(p: seq<Byte>, n: seq<Byte>, k: nat)
    requires Plain(p) && p != [] && k + Turns(p) < MATCHITERS_MAX
    ensures Turn(p, n, true) == if p <= n then Go([], n[|p|..], false, 0) else Stop(Refuse)
    ensures Starts(p, n) <==> p <= n
  {
    hide Chop;
    FirstSpecialIs(p, |p|);
    assert p[..|p|] == p;
    ChopAtStart(n, p);
  }

  /** `h` fits at place `q` of the name, to the end. */
  ghost predicate FitsAt(h: seq<Byte>, n: seq<Byte>, q: int) {
    0 <= q && q == |n| - |h| && Starts(h, n[q..])
  }

  /** The matcher accepts what is behind the text at place `q`. */
  ghost predicate AcceptsBehind(h: seq<Byte>, n: seq<Byte>, q: int, k: nat) {
    var t := Text(h);
    && 0 <= q && q + |t| <= |n|
    && if t == h then Run([], n[q + |t|..], false, 0, k + 1) == Accept
       else
         && q + |t| < |n| && Agree(h[|t|], n[q + |t|])
         && Run(h[|t| + 1..], n[q + |t| + 1..], true, h[|t|], k + 1) == Accept
  }

  /** A last piece that begins with a text is accepted exactly if it fits where the chain of
      occurrences of that text ends, and ends with the name. */
  lemma LastTextRuns(h: seq<Byte>, n: seq<Byte>, k: nat)
    requires Piece(h) && Text(h) != [] && k + Turns(h) < MATCHITERS_MAX
    ensures Run(h, n, false, STAR, k) == Accept <==> FitsAt(h, n, LastPlace(n, Text(h)))
  {
    LastTextSteps(h, n, k);
    var q := LastPlace(n, Text(h));
    hide Run, Turns, Text, LastPlace;
    if q >= 0 {
      hide AcceptsBehind, FitsAt;
      LastTextFits(h, n, q, k);
    }
  }

  lemma LastTextFits(h: seq<Byte>, n: seq<Byte>, q: nat, k: nat)
    requires Piece(h) && Text(h) != [] && OccursAt(n, Text(h), q) && k + Turns(h) < MATCHITERS_MAX
    ensures AcceptsBehind(h, n, q, k) <==> FitsAt(h, n, q)
  {
    TurnsAreMany(h);
    hide Run, Turns, Starts, Text;
    if Text(h) == h {
      LastTextOnly(h, n, q, k);
    } else {
      LastTextThenSingle(h, n, q, k);
    }
  }

  lemma LastTextSteps(h: seq<Byte>, n: seq<Byte>, k: nat)
    requires Piece(h) && Text(h) != [] && k + Turns(h) < MATCHITERS_MAX
    ensures Run(h, n, false, STAR, k) == Accept <==> AcceptsBehind(h, n, LastPlace(n, Text(h)), k)
  {
    TurnsAreMany(h);
    hide Run, Turn, Turns, Text;
    FirstTextTurn(h, n);
    RunTurns(h, n, false, STAR, k);
  }

  lemma FirstTextTurn(h: seq<Byte>, n: seq<Byte>)
    requires Piece(h) && Text(h) != []
    ensures var t, q := Text(h), LastPlace(n, Text(h));
      Turn(h, n, false) ==
        if q < 0 then Stop(Refuse)
        else if t == h then Go([], n[q + |t|..], false, 0)
        else if q + |t| == |n| || !Agree(h[|t|], n[q + |t|]) then Stop(Refuse)
        else Go(h[|t| + 1..], n[q + |t| + 1..], true, h[|t|])
  {
    TextOfPiece(h);
    hide *;
    if Text(h) == h {
      assert h + [] == h;
      TextTurn(h, [], n);
    } else {
      TextThenSingle(h, Text(h), n);
    }
  }

  lemma TextOfPiece(h: seq<Byte>)
    requires Piece(h)
    ensures var t := Text(h); Plain(t) && t <= h && (t == h || (Single(h[|t|]) && Simple(h[|t|..])))
  {
    SimpleRest(h, FirstSpecial(h));
  }

  lemma TextThenSingle(h: seq<Byte>, t: seq<Byte>, n: seq<Byte>)
    requires Plain(t) && t != [] && t < h && Single(h[|t|]) && Simple(h[|t|..])
    ensures var q := LastPlace(n, t);
      Turn(h, n, false) ==
        if q < 0 || q + |t| == |n| || !Agree(h[|t|], n[q + |t|]) then Stop(Refuse)
        else Go(h[|t| + 1..], n[q + |t| + 1..], true, h[|t|])
  {
    var f, q := h[|t|..], LastPlace(n, t);
    hide Turn, LastPlace, HasBraces;
    assert h == t + f;
    TextTurn(t, f, n);
    if q >= 0 {
      var n' := n[q + |t|..];
      SingleAsks(f, n');
      assert f[1..] == h[|t| + 1..];
      if n' != [] { assert n'[1..] == n[q + |t| + 1..] && n'[0] == n[q + |t|]; }
    }
  }

  lemma LastTextOnly(t: seq<Byte>, n: seq<Byte>, q: nat, k: nat)
    requires k + 1 < MATCHITERS_MAX && OccursAt(n, t, q)
    ensures Run([], n[q + |t|..], false, 0, k + 1) == Accept <==> FitsAt(t, n, q)
  {
    EmptyRuns(n[q + |t|..], false, 0, k + 1);
    assert n[q..q + |t|] == n[q..][..|t|];
  }

  lemma LastTextThenSingle(h: seq<Byte>, n: seq<Byte>, q: nat, k: nat)
    requires Piece(h) && Text(h) != h && OccursAt(n, Text(h), q) && k + Turns(h) < MATCHITERS_MAX
    ensures AcceptsBehind(h, n, q, k) <==> FitsAt(h, n, q)
  {
    hide Run, Turns, Starts;
    var t := Text(h);
    var n' := n[q + |t|..];
    TurnsAt(h, |t|);
    assert h[..|t|] == t;
    SimpleRest(h, |t| + 1);
    StartsSplit(h, n[q..], |t|);
    assert n[q..][..|t|] == n[q..q + |t|] == t;
    if n' != [] {
      assert n[q + |t| + 1..] == n[q..][|t| + 1..] && n[q + |t|] == n[q..][|t|];
      EndRuns(h[|t| + 1..], n[q + |t| + 1..], h[|t|], k + 1);
    }
  }

  /** A last piece that begins with a single byte must be the whole rest of the name. */
  lemma LastSingleRuns(h: seq<Byte>, n: seq<Byte>, k: nat)
    requires Piece(h) && h != [] && Single(h[0]) && k + Turns(h) < MATCHITERS_MAX
    ensures Run(h, n, false, STAR, k) == Accept <==> |n| == |h| && Starts(h, n)
  {
    TurnsAreMany(h);
    hide Run, Turn, Turns, Starts, HasBraces;
    RunTurns(h, n, false, STAR, k);
    TokenTurnOnly(h, n);
    SingleAsks(h, n);
    TurnsAt(h, 0);
    StartsSplit(h, n, 0);
    SimpleRest(h, 1);
    if n != [] && Agree(h[0], n[0]) { EndRuns(h[1..], n[1..], h[0], k + 1); }
  }

  /** So must one that begins with a single byte and has a `*` behind it, for as far as it goes. */
  lemma SingleGroupRuns(g: seq<Byte>, f: seq<Byte>, n: seq<Byte>, k: nat)
    requires Head(g) && Simple(g + [STAR] + f) && g != [] && Single(g[0]) && k + Singles(g) < MATCHITERS_MAX
    ensures Run(g + [STAR] + f, n, false, STAR, k) ==
      if Starts(g, n) then Run(f, n[|g|..], false, STAR, k + Singles(g) + 1) else Refuse
  {
    hide Run, Turn, Singles, HasBraces;
    var h := g + [STAR] + f;
    SinglesAt(g, 0);
    RunTurns(h, n, false, STAR, k);
    TokenTurnOnly(h, n);
    SingleAsks(h, n);
    SimpleRest(h, 1);
    assert h[1..] == g[1..] + [STAR] + f;
    StartsSplit(g, n, 0);
    if n != [] && Agree(g[0], n[0]) {
      HeadRuns(g[1..], f, n[1..], g[0], k + 1);
      if |g| <= |n| { assert n[1..][|g| - 1..] == n[|g|..]; }
    }
  }

  /** A text with a `*` behind it is taken out at the end of its chain. */
  lemma TextGroupRuns(g: seq<Byte>, f: seq<Byte>, n: seq<Byte>, k: nat)
    requires Plain(g) && g != [] && k < MATCHITERS_MAX
    ensures var q := LastPlace(n, g);
      Run(g + [STAR] + f, n, false, STAR, k) == if q < 0 then Refuse else Run(f, n[q + |g|..], false, STAR, k + 1)
  {
    hide Run, Turn, LastPlace;
    var h := [STAR] + f;
    assert g + [STAR] + f == g + h && h[1..] == f;
    RunTurns(g + h, n, false, STAR, k);
    TextTurn(g, h, n);
  }

  lemma StarRuns(f: seq<Byte>, n: seq<Byte>, k: nat)
    requires k < MATCHITERS_MAX
    ensures Run([STAR] + f, n, false, STAR, k) == Run(f, n, false, STAR, k + 1)
  {
    hide Run, Turn;
    RunTurns([STAR] + f, n, false, STAR, k);
    TokenTurnOnly([STAR] + f, n);
    assert ([STAR] + f)[1..] == f;
  }

  lemma {:induction false} StarsRun(f: seq<Byte>, n: seq<Byte>, k: nat)
    requires k + Turns(f) < MATCHITERS_MAX
    ensures var r := AfterStars(f);
      && |r| <= |f| && Turns(f) == |f| - |r| + Turns(r)
      && Run(f, n, false, STAR, k) == Run(r, n, false, STAR, k + |f| - |r|)
  {
    hide Run, Turns;
    if f != [] && f[0] == STAR {
      var g := f[1..];
      assert f == [STAR] + g;
      TurnsAt(f, 0);
      StarRuns(g, n, k);
      StarsRun(g, n, k + 1);
    }
  }

  lemma {:induction false} GroupTurns(g: seq<Byte>, f: seq<Byte>)
    requires Head(g)
    ensures Turns(g + [STAR] + f) == Singles(g) + 1 + Turns(f)
    decreases |g|
  {
    hide Turns;
    var h := g + [STAR] + f;
    if Plain(g) {
      NoSingles(g);
      assert forall j :: 0 <= j < |g| ==> h[j] == g[j];
      TurnsAt(h, |g|);
      assert h[|g| + 1..] == f;
    } else {
      var q := FirstSingle(g);
      forall j | 0 <= j < q ensures h[j] !in SPECIALS { assert h[j] == g[..q][j]; }
      TurnsAt(h, q);
      SinglesAt(g, q);
      assert h[q + 1..] == g[q + 1..] + [STAR] + f;
      GroupTurns(g[q + 1..], f);
    }
  }

  // ----- the condition suffices

  lemma TextOccurs(t: seq<Byte>, n: seq<Byte>, i: nat)
    requires Plain(t) && i <= |n| && Starts(t, n[i..])
    ensures OccursAt(n, t, i)
  {
    assert n[i..][..|t|] == n[i..i + |t|];
    assert forall j :: 0 <= j < |t| ==> t[j] == n[i..][j];
  }

  lemma TextIsFirst(h: seq<Byte>, n: seq<Byte>, e: nat)
    requires 0 !in h && e <= |n| && Starts(h, n[e..])
    ensures OccursAt(n, Text(h), e)
  {
    var t := Text(h);
    assert forall j :: 0 <= j < |t| ==> t[j] == h[j];
    TextOccurs(t, n, e);
  }

  /** An occurrence of `t` within the match of `h` at the end of the name. */
  lemma OccurrenceInside(t: seq<Byte>, h: seq<Byte>, n: seq<Byte>, q: nat)
    requires EndsWith(n, h) && OccursAt(n, t, q) && q >= |n| - |h|
    ensures Inside(t, h, q - (|n| - |h|))
  {
    var e := |n| - |h|;
    var d, m := q - e, n[e..];
    forall i | 0 <= i < |t| ensures h[d + i] == QUESTION || h[d + i] == t[i] {
      assert m[d + i] == n[q + i] == n[q..q + |t|][i];
    }
  }

  /** An occurrence of `s` that reaches into it. */
  lemma OccurrenceOverlaps(s: seq<Byte>, h: seq<Byte>, n: seq<Byte>, q: nat)
    requires EndsWith(n, h) && OccursAt(n, s, q) && q < |n| - |h| < q + |s|
    ensures Overlaps(s, h, q + |s| - (|n| - |h|))
  {
    var e := |n| - |h|;
    var j, m := q + |s| - e, n[e..];
    forall i | 0 <= i < j ensures h[i] == QUESTION || h[i] == s[|s| - j + i] {
      assert m[i] == n[q + (|s| - j + i)] == n[q..q + |s|][|s| - j + i];
    }
  }

  lemma LastAccepts(h: seq<Byte>, n: seq<Byte>, k: nat)
    requires Piece(h) && LastExact(h) && k + Turns(h) < MATCHITERS_MAX && Globs([STAR] + h, n)
    ensures Run(h, n, false, STAR, k) == Accept
  {
    hide Globs, Run, Turns, Starts;
    if h == [] {
      EmptyRuns(n, false, STAR, k);
    } else {
      LastPieceAtEnd(h, n);
      LastTextRuns(h, n, k);
      LastPlaceIsEnd(h, n);
    }
  }

  lemma LastPlaceIsEnd(h: seq<Byte>, n: seq<Byte>)
    requires Head(h) && h != [] && LastExact(h) && EndsWith(n, h)
    ensures FitsAt(h, n, LastPlace(n, Text(h)))
  {
    hide Starts, Text, LastPlace, Borderless, Inside, OccursAt, Head;
    var e := EndOccurs(h, n);
    LastPlaceReaches(n, Text(h), e);
    NoneBehind(h, n, LastPlace(n, Text(h)));
  }

  lemma NoneBehind(h: seq<Byte>, n: seq<Byte>, q: nat)
    requires h != [] && LastExact(h) && EndsWith(n, h) && OccursAt(n, Text(h), q)
    ensures q <= |n| - |h|
  {
    hide Starts, Text, Borderless, Inside, OccursAt;
    if q > |n| - |h| { OccurrenceInside(Text(h), h, n, q); }
  }

  lemma EndOccurs(h: seq<Byte>, n: seq<Byte>) returns (e: nat)
    requires Head(h) && EndsWith(n, h)
    ensures e == |n| - |h| && OccursAt(n, Text(h), e) && Plain(Text(h))
  {
    e := |n| - |h|;
    hide OccursAt, Text;
    TextIsFirst(h, n, e);
  }

  lemma LastPlaceReaches(n: seq<Byte>, t: seq<Byte>, e: nat)
    requires Plain(t) && t != [] && Borderless(t) && OccursAt(n, t, e)
    ensures LastPlace(n, t) >= e && OccursAt(n, t, LastPlace(n, t))
  {
    hide Find, Greedy, OccursAt, Borderless;
    FindHits(n, t, e);
    GreedyReaches(n, t, Find(n, t), e);
  }

  lemma TextTailAccepts(g: seq<Byte>, f: seq<Byte>, n: seq<Byte>, k: nat)
    requires Plain(g) && g != [] && Simple(f) && k + 1 + Turns(f) < MATCHITERS_MAX
    requires STAR !in AfterStars(f) && LastExact(AfterStars(f)) && Apart(g, AfterStars(f))
    requires Globs([STAR] + (g + ([STAR] + f)), n)
    ensures Run(g + [STAR] + f, n, false, STAR, k) == Accept
  {
    hide *;
    var w := TextTailRest(g, f, n, k);
    StarsRun(f, w, k + 1);
    LastPieceIsOne(f);
    LastAccepts(AfterStars(f), w, k + 1 + |f| - |AfterStars(f)|);
  }

  lemma LastPieceIsOne(f: seq<Byte>)
    requires Simple(f) && STAR !in AfterStars(f)
    ensures Piece(AfterStars(f))
  {
    AfterStarsSimple(f);
  }

  lemma TextTailRest(g: seq<Byte>, f: seq<Byte>, n: seq<Byte>, k: nat) returns (w: seq<Byte>)
    requires Plain(g) && g != [] && STAR !in AfterStars(f) && Apart(g, AfterStars(f)) && k < MATCHITERS_MAX
    requires Globs([STAR] + (g + ([STAR] + f)), n)
    ensures Run(g + [STAR] + f, n, false, STAR, k) == Run(f, w, false, STAR, k + 1)
    ensures Globs([STAR] + AfterStars(f), w)
  {
    hide *;
    PlainHasNoStar(g);
    var i := PieceIsSomewhere(g, [STAR] + f, n);
    TextOccurs(g, n, i);
    w := RestBehind(g, f, n, i, k);
  }

  lemma RestBehind(g: seq<Byte>, f: seq<Byte>, n: seq<Byte>, i: nat, k: nat) returns (w: seq<Byte>)
    requires Plain(g) && g != [] && STAR !in AfterStars(f) && Apart(g, AfterStars(f)) && k < MATCHITERS_MAX
    requires i + |g| <= |n| && OccursAt(n, g, i) && Globs([STAR] + f, n[i + |g|..]) && 0 !in g
    ensures Run(g + [STAR] + f, n, false, STAR, k) == Run(f, w, false, STAR, k + 1)
    ensures Globs([STAR] + AfterStars(f), w)
  {
    hide *;
    OccursSoFound(n, g, i);
    TextGroupRuns(g, f, n, k);
    StarsAreOne(f, n[i + |g|..]);
    RestStillMatches(g, AfterStars(f), n, i, LastPlace(n, g));
    w := n[LastPlace(n, g) + |g|..];
  }

  lemma PlainHasNoStar(g: seq<Byte>)
    requires Plain(g)
    ensures STAR !in g && 0 !in g && QUESTION !in g && Head(g)
  {
  }

  lemma {:induction false} AfterStarsSimple(f: seq<Byte>)
    requires Simple(f)
    ensures Simple(AfterStars(f))
  {
    if f != [] && f[0] == STAR {
      SimpleRest(f, 1);
      AfterStarsSimple(f[1..]);
    }
  }

  /** Wherever the chain of a text ends, a last piece apart from it still matches behind. */
  lemma RestStillMatches(g: seq<Byte>, h: seq<Byte>, n: seq<Byte>, i: nat, q: nat)
    requires STAR !in h && Apart(g, h) && i + |g| <= |n| && OccursAt(n, g, q) && Globs([STAR] + h, n[i + |g|..])
    ensures q + |g| <= |n| && Globs([STAR] + h, n[q + |g|..])
  {
    hide Globs, Starts;
    LastPieceAtEnd(h, n[i + |g|..]);
    var e := |n| - |h|;
    assert n[i + |g|..][|n| - i - |g| - |h|..] == n[e..];
    if q >= e {
      OccurrenceInside(g, h, n, q);
    } else {
      if q + |g| > e { OccurrenceOverlaps(g, h, n, q); }
      LastPieceTakes(h, n[q + |g|..e], n[e..]);
      assert n[q + |g|..] == n[q + |g|..e] + n[e..];
    }
  }

  lemma ExactTailParts(f: seq<Byte>) returns (g: seq<Byte>, rest: seq<Byte>)
    requires Simple(f) && ExactTail(f)
    ensures Head(g) && if STAR !in f then Piece(f) && LastExact(f)
      else
        && f == g + ([STAR] + rest) && Simple(rest)
        && if AllQuestions(g) then ExactTail(rest)
           else
             && Plain(g) && g != [] && STAR !in AfterStars(rest)
             && LastExact(AfterStars(rest)) && Apart(g, AfterStars(rest))
  {
    hide LastExact, Apart, AfterStars, Plain, HasBraces;
    var i := StarAt(f);
    g, rest := f[..i], [];
    if i == |f| {
      assert g == f;
    } else {
      rest := f[i + 1..];
      SimpleRest(f, i + 1);
      assert f == g + ([STAR] + rest);
    }
  }

  /** The condition is sufficient. */
  lemma {:induction false} ExactTailAccepts(f: seq<Byte>, n: seq<Byte>, k: nat)
    requires Simple(f) && ExactTail(f) && k + Turns(f) < MATCHITERS_MAX && Globs([STAR] + f, n)
    ensures Run(f, n, false, STAR, k) == Accept
    decreases |f|
  {
    hide *;
    var g, rest := ExactTailParts(f);
    if STAR !in f {
      LastAccepts(f, n, k);
    } else {
      GroupTurns(g, rest);
      assert g + [STAR] + rest == g + ([STAR] + rest);
      if AllQuestions(g) {
        QuestionsTake(g, rest, n, k);
        ExactTailAccepts(rest, n[|g|..], k + Singles(g) + 1);
      } else {
        NoSingles(g);
        TextTailAccepts(g, rest, n, k);
      }
    }
  }

  /** A piece of nothing but `?` behind a `*` skips as many bytes, and still the rest matches. */
  lemma QuestionsTake(g: seq<Byte>, f: seq<Byte>, n: seq<Byte>, k: nat)
    requires AllQuestions(g) && Simple(g + [STAR] + f) && k + Singles(g) < MATCHITERS_MAX
    requires Globs([STAR] + (g + ([STAR] + f)), n)
    ensures |g| <= |n| && Globs([STAR] + f, n[|g|..])
    ensures Run(g + [STAR] + f, n, false, STAR, k) == Run(f, n[|g|..], false, STAR, k + Singles(g) + 1)
  {
    hide Globs, Run;
    var i := PieceIsSomewhere(g, [STAR] + f, n);
    StarTakes(f, n[|g|..i + |g|], n[i + |g|..]);
    assert n[|g|..] == n[|g|..i + |g|] + n[i + |g|..];
    QuestionsRun(g, f, n, k);
  }

  lemma QuestionsRun(g: seq<Byte>, f: seq<Byte>, n: seq<Byte>, k: nat)
    requires AllQuestions(g) && Simple(g + [STAR] + f) && k + Singles(g) < MATCHITERS_MAX && |g| <= |n|
    ensures Run(g + [STAR] + f, n, false, STAR, k) == Run(f, n[|g|..], false, STAR, k + Singles(g) + 1)
  {
    hide Run;
    if g == [] {
      assert g + [STAR] + f == [STAR] + f && n[0..] == n;
      StarRuns(f, n, k);
    } else {
      SingleGroupRuns(g, f, n, k);
    }
  }

  // ----- the condition is necessary

  /** A chain that does not stay at its first place goes on behind it. */
  lemma ChainSkips(n: seq<Byte>, t: seq<Byte>, i: nat)
    requires Plain(t) && t != [] && Find(n, t) == i && OccursAt(n, t, i)
    ensures LastPlace(n, t) == i || LastPlace(n, t) >= i + |t|
  {
    hide Find;
    var from := i + |t|;
    var next := Find(n[from..], t);
    if next >= 0 {
      FindIsFirst(n[from..], t);
      OccursInRest(n, t, from, from + next);
      hide OccursAt, Greedy;
      GreedyStep(n, t, i, from, next);
      GreedyFinds(n, t, from + next);
    }
  }

  /** It passes a byte that is not in the text, if there is an occurrence behind it. */
  lemma ChainPasses(n: seq<Byte>, t: seq<Byte>, a: nat, j: nat)
    requires Plain(t) && t != [] && a < j && a < |n| && n[a] == STAR && OccursAt(n, t, j)
    ensures LastPlace(n, t) > a
  {
    hide Greedy, Find;
    FindHits(n, t, j);
    ChainPassesFrom(n, t, Find(n, t), a, j);
  }

  lemma ByteOfOccurrence(n: seq<Byte>, t: seq<Byte>, i: nat, a: nat)
    requires OccursAt(n, t, i) && i <= a < i + |t|
    ensures n[a] == t[a - i]
  {
    assert n[a] == n[i..i + |t|][a - i];
  }

  lemma {:induction false} ChainPassesFrom(n: seq<Byte>, t: seq<Byte>, i: nat, a: nat, j: nat)
    requires Plain(t) && t != [] && a < j && a < |n| && n[a] == STAR && OccursAt(n, t, j) && OccursAt(n, t, i)
    ensures Greedy(n, t, i) > a
    decreases |n| - i
  {
    hide Greedy, Find;
    if i > a {
      GreedyFinds(n, t, i);
    } else {
      if a < i + |t| { ByteOfOccurrence(n, t, i, a); }
      var next := ChainGoesOn(n, t, i, j);
      ChainPassesFrom(n, t, next, a, j);
    }
  }

  /** It stays at its first place if there is nothing behind. */
  lemma ChainStays(g: seq<Byte>, w: seq<Byte>)
    requires Plain(g) && g != [] && forall j :: !OccursAt(w, g, j)
    ensures LastPlace(g + w, g) == 0
  {
    hide Locate;
    var n := g + w;
    assert n[0..|g|] == g && n[|g|..] == w;
    FindHits(n, g, 0);
    FindIsFirst(w, g);
  }

  /** What is too short is not accepted. */
  lemma TooShort(f: seq<Byte>, n: seq<Byte>, must: bool, last: Byte, k: nat)
    requires Simple(f) && f != [] && k <= MATCHITERS_MAX && |n| < |Spelled(f)|
    ensures Run(f, n, must, last, k) != Accept
  {
    assert ([STAR] + f)[1..] == f;
    RunIsSound(f, n, must, last, k);
    if Globs(f, n) { MatchesAreLong(f, n); }
    if Globs([STAR] + f, n) { MatchesAreLong([STAR] + f, n); }
  }

  /** What keeps a last piece from being exact: it begins with a single byte, its text has a border
      of length `b`, or its text can occur again at place `d`. */
  datatype Gap = Leading | Border(b: nat) | Later(d: nat)

  ghost predicate HasGap(h: seq<Byte>, gap: Gap) {
    var t := Text(h);
    match gap
    case Leading => h != [] && t == []
    case Border(b) => 0 < b < |t| && t[..b] == t[|t| - b..]
    case Later(d) => t != [] && Borderless(t) && d >= 1 && Inside(t, h, d)
  }

  lemma GapExists(h: seq<Byte>) returns (gap: Gap)
    requires !LastExact(h)
    ensures HasGap(h, gap)
  {
    var t := Text(h);
    if t == [] { return Leading; }
    if !Borderless(t) {
      var b :| 0 < b < |t| && t[..b] == t[|t| - b..];
      return Border(b);
    }
    var d :| d >= 1 && Inside(t, h, d);
    return Later(d);
  }

  /** `h` with `s` in place of what is at `d`. */
  function Overlay(h: seq<Byte>, d: nat, s: seq<Byte>): seq<Byte>
    requires d + |s| <= |h|
  {
    h[..d] + s + h[d + |s|..]
  }

  lemma OverlayMatches(h: seq<Byte>, d: nat, s: seq<Byte>)
    requires d + |s| <= |h| && Starts(h[d..d + |s|], s)
    ensures var y := Overlay(h, d, s); |y| == |h| && Starts(h, y) && OccursAt(y, s, d)
  {
    var y := Overlay(h, d, s);
    assert y[d..d + |s|] == s;
    forall i | 0 <= i < |h| ensures h[i] == QUESTION || h[i] == y[i] {
      if d <= i < d + |s| { assert h[i] == h[d..d + |s|][i - d]; }
    }
  }

  /** The name that is missed: in front of a match of the piece a `*`, as a byte that is in no
      text, and for a border the beginning of an overlapping occurrence. */
  function Front(h: seq<Byte>, gap: Gap): seq<Byte>
    requires gap.Border? ==> gap.b <= |Text(h)|
  {
    if gap.Border? then [STAR] + Text(h)[..|Text(h)| - gap.b] else [STAR]
  }

  function Back(h: seq<Byte>, gap: Gap): seq<Byte>
    requires gap.Later? ==> gap.d + |Text(h)| <= |h|
  {
    if gap.Later? then Overlay(h, gap.d, Text(h)) else h
  }

  function Missed(h: seq<Byte>, gap: Gap): seq<Byte>
    requires gap.Border? ==> gap.b <= |Text(h)|
    requires gap.Later? ==> gap.d + |Text(h)| <= |h|
  {
    Front(h, gap) + Back(h, gap)
  }

  lemma BackMatches(h: seq<Byte>, gap: Gap)
    requires HasGap(h, gap)
    ensures |Back(h, gap)| == |h| && Starts(h, Back(h, gap)) && EndsWith(Missed(h, gap), h)
  {
    if gap.Later? { OverlayMatches(h, gap.d, Text(h)); }
    var n := Missed(h, gap);
    assert n[|n| - |h|..] == Back(h, gap);
  }

  lemma MissedMatches(h: seq<Byte>, gap: Gap)
    requires STAR !in h && HasGap(h, gap)
    ensures Globs([STAR] + h, Missed(h, gap))
  {
    BackMatches(h, gap);
    LastPieceTakes(h, Front(h, gap), Back(h, gap));
  }

  lemma MissedIsRefused(h: seq<Byte>, gap: Gap, k: nat)
    requires Piece(h) && HasGap(h, gap) && k + Turns(h) < MATCHITERS_MAX
    ensures Run(h, Missed(h, gap), false, STAR, k) != Accept
  {
    hide Run, Turns;
    if gap.Leading? {
      LastSingleRuns(h, Missed(h, gap), k);
    } else {
      LastTextRuns(h, Missed(h, gap), k);
      if gap.Border? { BorderPlace(h, gap.b); } else { LaterPlace(h, gap.d); }
    }
  }

  lemma BorderPlace(h: seq<Byte>, b: nat)
    requires Head(h) && HasGap(h, Border(b))
    ensures !FitsAt(h, Missed(h, Border(b)), LastPlace(Missed(h, Border(b)), Text(h)))
  {
    var t, n := Text(h), Missed(h, Border(b));
    BorderOccurs(h, b);
    assert |n| - |h| == 1 + |t| - b;
    hide Missed, Text, OccursAt, LastPlace;
    FirstAtOne(n, t);
    ChainSkips(n, t, 1);
  }

  lemma BorderOccurs(h: seq<Byte>, b: nat)
    requires HasGap(h, Border(b))
    ensures var n := Missed(h, Border(b)); OccursAt(n, Text(h), 1) && n[0] == STAR
  {
    var t, n := Text(h), Missed(h, Border(b));
    forall i | 0 <= i < |t| ensures n[1 + i] == t[i] {
      BorderByte(h, t, b, i);
    }
    assert n[1..1 + |t|] == t;
  }

  lemma BorderByte(h: seq<Byte>, t: seq<Byte>, b: nat, i: nat)
    requires t <= h && 0 < b < |t| && t[..b] == t[|t| - b..] && i < |t|
    ensures ([STAR] + t[..|t| - b] + h)[1 + i] == t[i]
  {
    var m := |t| - b;
    if i >= m {
      assert h[i - m] == t[i - m] == t[..b][i - m] == t[m..][i - m];
    }
  }

  lemma FirstAtOne(n: seq<Byte>, t: seq<Byte>)
    requires Plain(t) && t != [] && n != [] && n[0] == STAR && OccursAt(n, t, 1)
    ensures Find(n, t) == 1
  {
    hide Find;
    FindHits(n, t, 1);
    if Find(n, t) == 0 { ByteOfOccurrence(n, t, 0, 0); }
  }

  lemma LaterPlace(h: seq<Byte>, d: nat)
    requires Head(h) && HasGap(h, Later(d))
    ensures !FitsAt(h, Missed(h, Later(d)), LastPlace(Missed(h, Later(d)), Text(h)))
  {
    var t, n := Text(h), Missed(h, Later(d));
    LaterOccurs(h, d);
    assert |n| - |h| == 1;
    hide Missed, Text, OccursAt, LastPlace, Borderless, Inside, Starts;
    LastPlaceReaches(n, t, 1 + d);
  }

  lemma LaterOccurs(h: seq<Byte>, d: nat)
    requires Head(h) && HasGap(h, Later(d))
    ensures var n := Missed(h, Later(d)); OccursAt(n, Text(h), 1) && OccursAt(n, Text(h), 1 + d)
  {
    hide Borderless, Head;
    var t, y, n := Text(h), Overlay(h, d, Text(h)), Missed(h, Later(d));
    LaterIsOverlay(h, d);
    hide Missed, Overlay, OccursAt, Text, HasGap;
    OccursInRest(n, t, 1, 1);
    OccursInRest(n, t, 1, 1 + d);
  }

  lemma LaterIsOverlay(h: seq<Byte>, d: nat)
    requires Head(h) && HasGap(h, Later(d))
    ensures var t, y, n := Text(h), Overlay(h, d, Text(h)), Missed(h, Later(d));
      n != [] && n[1..] == y && OccursAt(y, t, 0) && OccursAt(y, t, d)
  {
    hide Borderless;
    var y := Overlay(h, d, Text(h));
    OverlayMatches(h, d, Text(h));
    hide OccursAt, Overlay, Inside;
    assert y[0..] == y;
    TextIsFirst(h, y, 0);
  }

  /** A text apart from the piece does not occur in it. */
  lemma MissedHasNone(g: seq<Byte>, h: seq<Byte>, gap: Gap, j: nat)
    requires Plain(g) && g != [] && Apart(g, h) && HasGap(h, gap)
    ensures !OccursAt(Missed(h, gap), g, j)
  {
    var n := Missed(h, gap);
    var e := |n| - |h|;
    BackMatches(h, gap);
    if OccursAt(n, g, j) {
      if j >= e {
        OccurrenceInside(g, h, n, j);
      } else if j + |g| > e {
        OccurrenceOverlaps(g, h, n, j);
      } else if j == 0 {
        ByteOfOccurrence(n, g, 0, 0);
      } else {
        OccurrenceInFront(g, h, gap.b, j);
      }
    }
  }

  lemma OccurrenceInFront(g: seq<Byte>, h: seq<Byte>, b: nat, j: nat)
    requires HasGap(h, Border(b)) && 0 < j && j + |g| <= 1 + |Text(h)| - b && OccursAt(Missed(h, Border(b)), g, j)
    ensures Inside(g, h, j - 1)
  {
    var n, t := Missed(h, Border(b)), Text(h);
    forall i | 0 <= i < |g| ensures h[j - 1 + i] == g[i] {
      ByteOfOccurrence(n, g, j, j + i);
      FrontByte(h, b, j + i);
    }
  }

  lemma FrontByte(h: seq<Byte>, b: nat, i: nat)
    requires b <= |Text(h)| && 0 < i <= |Text(h)| - b
    ensures Missed(h, Border(b))[i] == h[i - 1]
  {
    var t := Text(h);
    hide FirstSpecial;
    var front := [STAR] + t[..|t| - b];
    assert Missed(h, Border(b)) == front + h && front[i] == t[i - 1] == h[i - 1];
  }

  /** Of a filter with a `*`: what stands in front of its last one, and the last piece. */
  lemma {:induction false} AtLastStar(f: seq<Byte>) returns (u: seq<Byte>, b: seq<Byte>)
    requires STAR in f
    ensures f == u + ([STAR] + b) && STAR !in b
  {
    var i := StarAt(f);
    assert i < |f| by { assert f[..|f|] == f; }
    var g, rest := f[..i], f[i + 1..];
    if STAR in rest {
      u, b := AtLastStar(rest);
      u := g + [STAR] + u;
    } else {
      u, b := g, rest;
    }
  }

  /** A first piece that begins with a text, and more behind it in front of the last star: the
      name that is missed spells all that out and has the text once more in front of the last
      piece. The chain goes there, and what is left is too short. */
  function Overrun(f: seq<Byte>, u: seq<Byte>, b: seq<Byte>): seq<Byte> {
    Spelled(u) + ([STAR] + Text(f) + b)
  }

  lemma OverrunIsRefused(f: seq<Byte>, u: seq<Byte>, b: seq<Byte>, k: nat)
    requires Simple(f) && f == u + ([STAR] + b) && Text(f) != [] && |Spelled(u)| > |Text(f)| && STAR !in b
    requires k + Turns(f) < MATCHITERS_MAX
    ensures Run(f, Overrun(f, u, b), false, STAR, k) != Accept
  {
    var t := Text(f);
    var f2 := f[|t|..];
    assert f == t + f2;
    LengthBehindText(f, u, b, t, f2);
    assert f2 != [] && f2[0] in SPECIALS;
    assert Simple(f2);
    TurnsAreMany(f);
    OverrunPlace(u, b, t);
    hide Run, Turns, Spelled, LastPlace, Text, Simple, Plain;
    TextThenTooShort(t, f2, Overrun(f, u, b), k);
  }

  lemma OverrunPlace(u: seq<Byte>, b: seq<Byte>, t: seq<Byte>)
    requires Plain(t) && t != []
    ensures LastPlace(Spelled(u) + ([STAR] + t + b), t) > |Spelled(u)|
  {
    var a := |Spelled(u)|;
    var n := Spelled(u) + ([STAR] + t + b);
    hide LastPlace;
    assert n[a + 1..a + 1 + |t|] == t;
    ChainPasses(n, t, a, a + 1);
  }

  lemma TextThenTooShort(t: seq<Byte>, f: seq<Byte>, n: seq<Byte>, k: nat)
    requires Plain(t) && t != [] && Simple(f) && f != [] && f[0] in SPECIALS && k < MATCHITERS_MAX
    requires |n| < LastPlace(n, t) + |t| + |Spelled(f)|
    ensures Run(t + f, n, false, STAR, k) != Accept
  {
    hide Run, Turn, Spelled, LastPlace;
    RunTurns(t + f, n, false, STAR, k);
    TextTurn(t, f, n);
    var q := LastPlace(n, t);
    if q >= 0 { BehindTextTooShort(f, n[q + |t|..], |Spelled(f)| - 1, k + 1); }
  }

  lemma LengthBehindText(f: seq<Byte>, u: seq<Byte>, b: seq<Byte>, t: seq<Byte>, f2: seq<Byte>)
    requires f == u + ([STAR] + b) == t + f2 && STAR !in b && STAR !in t
    ensures |t| + |Spelled(f2)| == |Spelled(u)| + |b|
  {
    SpelledConcat(u, [STAR] + b);
    SpelledConcat([STAR], b);
    SpelledHead(b);
    SpelledConcat(t, f2);
    SpelledHead(t);
    assert Spelled([STAR]) == [];
  }

  /** What follows the text of a turn, on a rest of the name that is too short for it. */
  lemma BehindTextTooShort(f: seq<Byte>, n: seq<Byte>, most: nat, k: nat)
    requires Simple(f) && f != [] && f[0] in SPECIALS && |n| <= most < |Spelled(f)| && k <= MATCHITERS_MAX
    ensures var r := AfterText(f[0], f[1..], n);
      if r.Stop? then r.verdict == Refuse else Run(r.filter, r.name, r.must, r.token, k) != Accept
  {
    var r := AfterText(f[0], f[1..], n);
    if r.Go? { TooShort(r.filter, r.name, r.must, r.token, k); }
  }

  /** A name that a filter matches behind a `*`, and the matcher refuses. */
  ghost predicate IsMissed(f: seq<Byte>, n: seq<Byte>, k: nat) {
    Globs([STAR] + f, n) && Run(f, n, false, STAR, k) != Accept
  }

  lemma LastMissed(h: seq<Byte>, k: nat) returns (n: seq<Byte>)
    requires Piece(h) && !LastExact(h) && k + Turns(h) < MATCHITERS_MAX
    ensures IsMissed(h, n, k)
  {
    hide Globs, Run, Turns, LastExact, HasGap;
    var gap := GapExists(h);
    GapIsThere(h, gap);
    MissedMatches(h, gap);
    MissedIsRefused(h, gap, k);
    n := Missed(h, gap);
  }

  lemma GapIsThere(h: seq<Byte>, gap: Gap)
    requires HasGap(h, gap)
    ensures gap.Border? ==> gap.b <= |Text(h)|
    ensures gap.Later? ==> gap.d + |Text(h)| <= |h|
  {
  }

  /** A piece of nothing but `?` takes as many bytes from a name that is missed without it. */
  lemma QuestionsMissed(g: seq<Byte>, f: seq<Byte>, n: seq<Byte>, k: nat)
    requires AllQuestions(g) && Simple(g + ([STAR] + f)) && k + Singles(g) < MATCHITERS_MAX
    requires IsMissed(f, n, k + Singles(g) + 1)
    ensures IsMissed(g + ([STAR] + f), g + n, k)
  {
    hide Globs, Run;
    TextMatchesItself(g, [STAR] + f, n);
    StarSkips(g + ([STAR] + f), [], g + n);
    assert [] + (g + n) == g + n && (g + n)[|g|..] == n;
    assert g + [STAR] + f == g + ([STAR] + f);
    QuestionsRun(g, f, g + n, k);
  }

  /** A piece that begins with a single byte, and is more than `?`s, is looked for at one place
      only. */
  lemma SingleFirstMissed(g: seq<Byte>, f: seq<Byte>, k: nat) returns (n: seq<Byte>)
    requires Head(g) && g != [] && Single(g[0]) && !AllQuestions(g) && k + Singles(g) < MATCHITERS_MAX
    requires Simple(g + ([STAR] + f))
    ensures IsMissed(g + ([STAR] + f), n, k)
  {
    hide Globs, Run, Spelled;
    var h := g + ([STAR] + f);
    MatchesSpelled(h);
    n := [STAR] + Spelled(h);
    StarSkips(h, [STAR], Spelled(h));
    SpelledConcat(g, [STAR] + f);
    SpelledHead(g);
    assert g + [STAR] + f == h;
    SingleGroupRuns(g, f, n, k);
    ShiftedIsNoMatch(g, Spelled([STAR] + f), 0);
  }

  lemma {:induction false} ShiftedIsNoMatch(g: seq<Byte>, m: seq<Byte>, i: nat)
    requires STAR !in g && !AllQuestions(g) && i <= |g| && forall j :: 0 <= j < i ==> g[j] == QUESTION
    ensures !Starts(g, [STAR] + (g + m))
    decreases |g| - i
  {
    if i < |g| {
      if g[i] == QUESTION {
        ShiftedIsNoMatch(g, m, i + 1);
      } else {
        assert ([STAR] + (g + m))[i] == if i == 0 then STAR else g[i - 1];
      }
    }
  }

  lemma NoStarBehind(b: seq<Byte>)
    requires STAR !in b
    ensures STAR !in AfterStars([] + ([STAR] + b))
  {
    AfterStarsAreIn(b);
    assert ([] + ([STAR] + b))[1..] == b;
  }

  lemma {:induction false} SpelledBeforeStar(f: seq<Byte>, u: seq<Byte>, b: seq<Byte>)
    requires f == u + ([STAR] + b) && STAR !in b && STAR in AfterStars(f)
    ensures Spelled(u) != []
  {
    if u == [] {
      NoStarBehind(b);
    } else if u[0] == STAR {
      assert f[1..] == u[1..] + ([STAR] + b);
      SpelledBeforeStar(f[1..], u[1..], b);
    }
  }

  lemma OverrunMissed(g: seq<Byte>, f: seq<Byte>, k: nat) returns (n: seq<Byte>)
    requires Head(g) && Simple(g + ([STAR] + f)) && Text(g) != [] && (!Plain(g) || STAR in AfterStars(f))
    requires k + Turns(g + ([STAR] + f)) < MATCHITERS_MAX
    ensures IsMissed(g + ([STAR] + f), n, k)
  {
    hide Globs, Run, Turns, Spelled;
    var h := g + ([STAR] + f);
    var u, b := LastStarOf(g, f);
    TextInFront(g, f);
    SpelledHead(g);
    n := Overrun(h, u, b);
    OverrunIsRefused(h, u, b, k);
    LastStarTakes(u, [STAR] + Text(h), b);
    StarSkips(h, [], n);
    assert [] + n == n;
  }

  /** The text of the first piece is the text of the filter. */
  lemma TextInFront(g: seq<Byte>, f: seq<Byte>)
    requires Head(g)
    ensures Text(g + ([STAR] + f)) == Text(g) && (Text(g) == g || Plain(g) || |Text(g)| < |g|)
  {
    var h, t := g + ([STAR] + f), FirstSpecial(g);
    assert forall j :: 0 <= j < |g| ==> h[j] == g[j];
    FirstSpecialIs(h, t);
    assert h[..t] == g[..t];
  }

  lemma TextIsShorter(g: seq<Byte>)
    requires Head(g)
    ensures |Text(g)| <= |g| && (Plain(g) || |Text(g)| < |g|)
  {
  }

  lemma LastStarOf(g: seq<Byte>, f: seq<Byte>) returns (u: seq<Byte>, b: seq<Byte>)
    requires Head(g) && (!Plain(g) || STAR in AfterStars(f))
    ensures g + ([STAR] + f) == u + ([STAR] + b) && STAR !in b
    ensures |Spelled(u)| > |Text(g)|
  {
    TextIsShorter(g);
    SpelledHead(g);
    hide Text, Plain;
    if STAR in f {
      var v;
      v, b := AtLastStar(f);
      u := g + ([STAR] + v);
      SpelledConcat(g, [STAR] + v);
      SpelledConcat([STAR], v);
      assert Spelled([STAR]) == [];
      if STAR in AfterStars(f) { SpelledBeforeStar(f, v, b); }
      hide Spelled, AfterStars, Head;
      assert g + ([STAR] + f) == u + ([STAR] + b);
    } else {
      AfterStarsAreIn(f);
      u, b := g, f;
    }
  }

  lemma {:induction false} AfterStarsAreIn(f: seq<Byte>)
    ensures STAR in AfterStars(f) ==> STAR in f
  {
    if f != [] && f[0] == STAR { AfterStarsAreIn(f[1..]); }
  }

  lemma {:induction false} SpelledStars(f: seq<Byte>)
    requires STAR !in AfterStars(f)
    ensures Spelled(f) == AfterStars(f)
  {
    if f != [] && f[0] == STAR { SpelledStars(f[1..]); } else { SpelledHead(f); }
  }

  lemma TextThenLast(g: seq<Byte>, f: seq<Byte>, x: seq<Byte>, y: seq<Byte>)
    requires Plain(g) && STAR !in AfterStars(f) && |y| == |AfterStars(f)| && Starts(AfterStars(f), y)
    ensures Globs([STAR] + (g + ([STAR] + f)), g + (x + y))
  {
    hide Globs, Starts;
    LastPieceTakes(AfterStars(f), x, y);
    StarsAreOne(f, x + y);
    TextMatchesItself(g, [STAR] + f, x + y);
    StarSkips(g + ([STAR] + f), [], g + (x + y));
    assert [] + (g + (x + y)) == g + (x + y);
  }

  /** The text occurs again behind a byte that is not in it, and what follows there is too short. */
  lemma AgainIsRefused(g: seq<Byte>, f: seq<Byte>, n: seq<Byte>, p: nat, k: nat)
    requires Plain(g) && g != [] && Simple(f) && f != [] && STAR !in AfterStars(f) && k < MATCHITERS_MAX
    requires |g| < p && OccursAt(n, g, p) && n[|g|] == STAR && |n| <= 2 * |g| + |AfterStars(f)|
    ensures Run(g + ([STAR] + f), n, false, STAR, k) != Accept
  {
    hide Run, LastPlace, Spelled;
    TextGroupRuns(g, f, n, k);
    assert g + [STAR] + f == g + ([STAR] + f);
    ChainPasses(n, g, |g|, p);
    SpelledStars(f);
    TooShort(f, n[LastPlace(n, g) + |g|..], false, STAR, k + 1);
  }

  lemma OverlapMissed(g: seq<Byte>, f: seq<Byte>, j: int, k: nat) returns (n: seq<Byte>)
    requires Plain(g) && g != [] && Simple(f) && STAR !in AfterStars(f) && k < MATCHITERS_MAX
    requires Overlaps(g, AfterStars(f), j)
    ensures IsMissed(g + ([STAR] + f), n, k)
  {
    hide Globs, Run;
    var h := AfterStars(f);
    var s := g[|g| - j..];
    var x, y := [STAR] + g[..|g| - j], Overlay(h, 0, s);
    assert h[0..0 + |s|] == h[..j];
    OverlayMatches(h, 0, s);
    TextThenLast(g, f, x, y);
    n := g + (x + y);
    assert OccursAt(n, g, |g| + 1) by { OverlapOccurs(g, j, h[|s|..]); assert y == s + h[|s|..]; }
    AgainIsRefused(g, f, n, |g| + 1, k);
  }

  lemma OverlapOccurs(g: seq<Byte>, j: int, r: seq<Byte>)
    requires 1 <= j < |g|
    ensures OccursAt(g + ([STAR] + g[..|g| - j] + (g[|g| - j..] + r)), g, |g| + 1)
  {
    var n := g + ([STAR] + g[..|g| - j] + (g[|g| - j..] + r));
    assert n[|g| + 1..|g| + 1 + |g|] == g;
  }

  lemma InsideMissed(g: seq<Byte>, f: seq<Byte>, d: int, k: nat) returns (n: seq<Byte>)
    requires Plain(g) && g != [] && Simple(f) && STAR !in AfterStars(f) && k < MATCHITERS_MAX
    requires Inside(g, AfterStars(f), d)
    ensures IsMissed(g + ([STAR] + f), n, k)
  {
    hide Globs, Run;
    var y := Overlay(AfterStars(f), d, g);
    OverlayMatches(AfterStars(f), d, g);
    TextThenLast(g, f, [STAR], y);
    n := g + ([STAR] + y);
    assert n[|g| + 1..] == y && n[|g| + 1..][d..d + |g|] == n[|g| + 1 + d..|g| + 1 + d + |g|];
    AgainIsRefused(g, f, n, |g| + 1 + d, k);
  }

  lemma GapNameMatches(g: seq<Byte>, f: seq<Byte>, gap: Gap)
    requires Plain(g) && STAR !in AfterStars(f) && HasGap(AfterStars(f), gap)
    ensures Globs([STAR] + (g + ([STAR] + f)), g + Missed(AfterStars(f), gap))
  {
    hide Globs, Starts;
    BackMatches(AfterStars(f), gap);
    TextThenLast(g, f, Front(AfterStars(f), gap), Back(AfterStars(f), gap));
  }

  lemma TextThenRefused(g: seq<Byte>, f: seq<Byte>, w: seq<Byte>, k: nat)
    requires Plain(g) && g != [] && LastPlace(g + w, g) == 0 && k < MATCHITERS_MAX
    requires Run(f, w, false, STAR, k + 1) != Accept
    ensures Run(g + ([STAR] + f), g + w, false, STAR, k) != Accept
  {
    hide Run, LastPlace, Plain;
    TextGroupRuns(g, f, g + w, k);
    assert g + [STAR] + f == g + ([STAR] + f);
    assert (g + w)[0 + |g|..] == w;
  }

  lemma GapBehindMissed(g: seq<Byte>, f: seq<Byte>, k: nat) returns (n: seq<Byte>)
    requires Plain(g) && g != [] && Simple(f) && STAR !in AfterStars(f)
    requires Apart(g, AfterStars(f)) && !LastExact(AfterStars(f)) && k + 1 + Turns(f) < MATCHITERS_MAX
    ensures IsMissed(g + ([STAR] + f), n, k)
  {
    hide Globs, Run, Turns, LastExact, HasGap, Apart, Missed, Plain, OccursAt, AfterStars;
    var h := AfterStars(f);
    var gap := GapExists(h);
    GapIsThere(h, gap);
    n := g + Missed(h, gap);
    GapNameMatches(g, f, gap);
    forall j ensures !OccursAt(Missed(h, gap), g, j) { MissedHasNone(g, h, gap, j); }
    StarsRun(f, Missed(h, gap), k + 1);
    LastPieceIsOne(f);
    MissedIsRefused(h, gap, k + 1 + |f| - |h|);
    ChainStays(g, Missed(h, gap));
    TextThenRefused(g, f, Missed(h, gap), k);
  }

  lemma TextMissed(g: seq<Byte>, f: seq<Byte>, k: nat) returns (n: seq<Byte>)
    requires Plain(g) && g != [] && Simple(f) && STAR !in AfterStars(f)
    requires !(LastExact(AfterStars(f)) && Apart(g, AfterStars(f))) && k + 1 + Turns(f) < MATCHITERS_MAX
    ensures IsMissed(g + ([STAR] + f), n, k)
  {
    hide IsMissed, Overlaps, Inside, LastExact;
    var h := AfterStars(f);
    if j :| Overlaps(g, h, j) { n := OverlapMissed(g, f, j, k); }
    else if d :| Inside(g, h, d) { n := InsideMissed(g, f, d, k); }
    else { n := GapBehindMissed(g, f, k); }
  }

  lemma NotExactTail(f: seq<Byte>) returns (g: seq<Byte>, rest: seq<Byte>)
    requires Simple(f) && !ExactTail(f)
    ensures Head(g) && if STAR !in f then Piece(f) && !LastExact(f)
      else
        && f == g + ([STAR] + rest) && Simple(rest)
        && if AllQuestions(g) then !ExactTail(rest)
           else !(Plain(g) && STAR !in AfterStars(rest) && LastExact(AfterStars(rest)) && Apart(g, AfterStars(rest)))
  {
    hide LastExact, Apart, AfterStars, AllQuestions, Plain, HasBraces;
    var i := StarAt(f);
    g, rest := f[..i], [];
    if i == |f| {
      assert g == f;
    } else {
      rest := f[i + 1..];
      SimpleRest(f, i + 1);
      assert f == g + ([STAR] + rest);
    }
  }

  /** The condition is necessary: without it some matching name is refused. */
  lemma {:induction false} TailMissed(f: seq<Byte>, k: nat) returns (n: seq<Byte>)
    requires Simple(f) && !ExactTail(f) && k + Turns(f) < MATCHITERS_MAX
    ensures IsMissed(f, n, k)
    decreases |f|
  {
    hide *;
    var g, rest := NotExactTail(f);
    if STAR !in f {
      n := LastMissed(f, k);
    } else {
      GroupTurns(g, rest);
      assert g + [STAR] + rest == g + ([STAR] + rest);
      if AllQuestions(g) {
        n := TailMissed(rest, k + Singles(g) + 1);
        QuestionsMissed(g, rest, n, k);
        n := g + n;
      } else {
        n := PieceMissed(g, rest, k);
      }
    }
  }

  lemma PieceMissed(g: seq<Byte>, f: seq<Byte>, k: nat) returns (n: seq<Byte>)
    requires Head(g) && Simple(f) && Simple(g + ([STAR] + f))
    requires !AllQuestions(g) && k + Singles(g) + 1 + Turns(f) < MATCHITERS_MAX
    requires !(Plain(g) && STAR !in AfterStars(f) && LastExact(AfterStars(f)) && Apart(g, AfterStars(f)))
    ensures IsMissed(g + ([STAR] + f), n, k)
  {
    hide IsMissed, Turns, LastExact, Apart, AfterStars, Singles;
    if Single(g[0]) {
      n := SingleFirstMissed(g, f, k);
    } else if !Plain(g) || STAR in AfterStars(f) {
      GroupTurns(g, f);
      assert g + [STAR] + f == g + ([STAR] + f);
      n := OverrunMissed(g, f, k);
    } else {
      n := TextMissed(g, f, k);
    }
  }

  // ----- the filters for which the matcher is exact

  lemma NoBraces(f: seq<Byte>)
    requires Simple(f)
    ensures !HasBraces(f)
  {
  }

  lemma TooManyTurns(f: seq<Byte>)
    requires Turns(f) >= MATCHITERS_MAX
    ensures !Exact(f)
  {
    hide Run, Globs, Turns;
    MatchesSpelled(f);
    if Passes(f, Spelled(f), 0) == Accept { AcceptsWithinTurns(f, Spelled(f), true, 0, 0); }
  }

  lemma StarFreeIsExact(f: seq<Byte>, n: seq<Byte>)
    requires Piece(f) && Turns(f) < MATCHITERS_MAX
    ensures Passes(f, n, 0) == Accept <==> Globs(f, n)
  {
    hide Run, Globs, Turns;
    EndRuns(f, n, 0, 0);
    GlobsPrefix(f, [], n);
    assert f + [] == f;
    if |f| <= |n| { EmptyMatches(n[|f|..]); }
  }

  lemma StarFreeAreExact(f: seq<Byte>)
    requires Piece(f) && Turns(f) < MATCHITERS_MAX
    ensures Exact(f)
  {
    hide Passes, Globs;
    forall n: seq<Byte> ensures Passes(f, n, 0) == Accept <==> Globs(f, n) { StarFreeIsExact(f, n); }
  }

  /** What comes before the first `*` is matched exactly; the rest decides. */
  lemma BehindFirstStar(p: seq<Byte>, f: seq<Byte>, n: seq<Byte>)
    requires Head(p) && Simple(p + ([STAR] + f)) && Turns(p + ([STAR] + f)) < MATCHITERS_MAX
    ensures Singles(p) + 1 + Turns(f) < MATCHITERS_MAX
    ensures Passes(p + ([STAR] + f), n, 0) == Accept <==>
      Starts(p, n) && Run(f, n[|p|..], false, STAR, Singles(p) + 1) == Accept
    ensures Globs(p + ([STAR] + f), n) <==> Starts(p, n) && Globs([STAR] + f, n[|p|..])
  {
    hide Run, Globs, Turns, Singles, Starts;
    assert p + ([STAR] + f) == p + [STAR] + f;
    GroupTurns(p, f);
    HeadRuns(p, f, n, 0, 0);
    GlobsPrefix(p, [STAR] + f, n);
  }

  lemma ExactBehindStar(p: seq<Byte>, f: seq<Byte>)
    requires Head(p) && Simple(p + ([STAR] + f)) && Simple(f) && Turns(p + ([STAR] + f)) < MATCHITERS_MAX
    ensures Exact(p + ([STAR] + f)) <==> ExactTail(f)
  {
    hide Run, Globs, Turns, Singles, ExactTail, Simple;
    var h := p + ([STAR] + f);
    BehindFirstStar(p, f, p);
    if ExactTail(f) {
      forall n: seq<Byte> ensures Passes(h, n, 0) == Accept <==> Globs(h, n) {
        ExactName(p, f, n);
      }
    } else {
      var m := TailMissed(f, Singles(p) + 1);
      BehindFirstStar(p, f, p + m);
      assert (p + m)[|p|..] == m;
    }
  }

  lemma ExactName(p: seq<Byte>, f: seq<Byte>, n: seq<Byte>)
    requires Head(p) && Simple(p + ([STAR] + f)) && Simple(f) && Turns(p + ([STAR] + f)) < MATCHITERS_MAX
    requires ExactTail(f)
    ensures Passes(p + ([STAR] + f), n, 0) == Accept <==> Globs(p + ([STAR] + f), n)
  {
    hide Run, Globs, Turns, Singles, ExactTail, Starts, Passes;
    BehindFirstStar(p, f, n);
    NoBraces(p + ([STAR] + f));
    hide HasBraces;
    AcceptedNamesMatch(p + ([STAR] + f), n, 0);
    if Globs(p + ([STAR] + f), n) {
      assert |p| <= |n| by { StartsIsLong(p, n); }
      ExactTailAccepts(f, n[|p|..], Singles(p) + 1);
    }
  }

  lemma StartsIsLong(p: seq<Byte>, n: seq<Byte>)
    requires Starts(p, n)
    ensures |p| <= |n|
  {
  }

  /** For every filter without a list of alternatives the matcher gives the usual verdict on all
      names if and only if the filter is exact by the condition above. */
  lemma ExactIff(f: seq<Byte>)
    requires Simple(f)
    ensures Exact(f) <==> ExactFilter(f)
  {
    hide Exact, ExactTail, Turns;
    var i := StarAt(f);
    if Turns(f) >= MATCHITERS_MAX {
      TooManyTurns(f);
    } else if i == |f| {
      assert f[..i] == f;
      StarFreeAreExact(f);
    } else {
      var p, rest := f[..i], f[i + 1..];
      assert f == p + ([STAR] + rest);
      SimpleRest(f, i + 1);
      ExactBehindStar(p, rest);
    }
  }

  // ----- some filters

  /** With one `*` and a text behind it, the text must not overlap itself. */
  lemma ExactWithOneStar(p: seq<Byte>, s: seq<Byte>)
    requires Simple(p + [STAR] + s) && STAR !in p && Plain(s)
    ensures Exact(p + [STAR] + s) <==> Borderless(s) && Turns(p + [STAR] + s) < MATCHITERS_MAX
  {
    hide Exact, Turns, Borderless;
    var f := p + [STAR] + s;
    StarAtIs(f, |p|);
    assert f[|p| + 1..] == s;
    StarAtIs(s, |s|);
    FirstSpecialIs(s, |s|);
    assert s[..|s|] == s;
    if s == [] { EmptyIsBorderless(); }
    ExactIff(f);
  }

  lemma EmptyIsBorderless()
    ensures Borderless([])
  {
  }

  lemma {:induction false} StarAtIs(f: seq<Byte>, i: nat)
    requires i <= |f| && STAR !in f[..i] && (i < |f| ==> f[i] == STAR)
    ensures StarAt(f) == i
  {
    if i > 0 {
      assert f[0] == f[..i][0] && f[1..][..i - 1] == f[..i][1..];
      StarAtIs(f[1..], i - 1);
    }
  }

  lemma OnlyQuestion()
    ensures Turns([QUESTION]) == 1 && Turns([STAR] + [QUESTION]) == 2 && !ExactTail([QUESTION])
  {
    var h := [QUESTION];
    TurnsAt(h, 0);
    FirstSpecialIs(h, 0);
    StarAtIs(h, 1);
    assert [] + [STAR] + h == [STAR] + h && h[..1] == h && h[1..] == [];
    hide Turns;
    GroupTurns([], h);
    NoTurns();
  }

  lemma TwoMatch()
    ensures Globs([STAR] + [QUESTION], [A, A])
  {
    hide Globs;
    LastPieceTakes([QUESTION], [A], [A]);
    assert [A] + [A] == [A, A];
  }

  /** A filter that begins with its first `*`. */
  lemma StarInFront(h: seq<Byte>)
    requires Simple([STAR] + h) && !ExactTail(h)
    ensures !ExactFilter([STAR] + h) && !Exact([STAR] + h)
  {
    var f := [STAR] + h;
    hide Exact, Turns;
    StarAtIs(f, 0);
    assert f[1..] == h;
    ExactIff(f);
  }

  lemma RefusedBehindStar(h: seq<Byte>, n: seq<Byte>)
    requires Simple([STAR] + h) && Turns([STAR] + h) < MATCHITERS_MAX && Run(h, n, false, STAR, 1) != Accept
    ensures Passes([STAR] + h, n, 0) == Refuse
  {
    hide Run, Turns;
    assert [] + ([STAR] + h) == [STAR] + h && n[0..] == n;
    assert Singles([]) == 0;
    BehindFirstStar([], h, n);
    NoBraces([STAR] + h);
    AcceptedNamesMatch([STAR] + h, n, 0);
  }

  /** With a `?` behind the `*`: `*?` is not exact, the name `aa` matches it and is refused. */
  lemma QuestionAfterStarIsMissed()
    ensures !ExactFilter([STAR, QUESTION]) && !Exact([STAR, QUESTION])
    ensures Globs([STAR, QUESTION], [A, A]) && Passes([STAR, QUESTION], [A, A], 0) == Refuse
  {
    hide Run, Globs, Exact, Turns, ExactTail, ExactFilter, Passes;
    var h := [QUESTION];
    assert [STAR] + h == [STAR, QUESTION];
    OnlyQuestion();
    StarInFront(h);
    TwoMatch();
    LastSingleRuns(h, [A, A], 1);
    RefusedBehindStar(h, [A, A]);
  }

  lemma AbaTurns()
    ensures Turns([A] + ([STAR] + [B, STAR])) == 2 && Turns([STAR] + ([A] + ([STAR] + [B, STAR]))) == 3
  {
    var h := [A] + ([STAR] + [B, STAR]);
    assert [] + [STAR] + h == [STAR] + h && [A] + [STAR] + [B, STAR] == h && [B] + [STAR] + [] == [B, STAR];
    hide Turns;
    GroupTurns([B], []);
    GroupTurns([A], [B, STAR]);
    GroupTurns([], h);
    NoTurns();
  }

  lemma NoTurns()
    ensures Turns([]) == 0 && Singles([]) == 0 && Singles([A]) == 0 && Singles([B]) == 0
  {
    NoSingles([A]);
    NoSingles([B]);
  }

  lemma AbaMatches()
    ensures Globs([STAR, A, STAR, B, STAR], [A, B, A])
  {
    var u := [STAR, A, STAR, B];
    assert u == [STAR] + ([A] + ([STAR] + [B]));
    SpelledConcat([STAR], [A] + ([STAR] + [B]));
    SpelledConcat([A], [STAR] + [B]);
    SpelledConcat([STAR], [B]);
    SpelledHead([A]);
    SpelledHead([B]);
    assert Spelled([STAR]) == [];
    assert Spelled(u) == [A, B];
    hide Globs, Spelled;
    LastStarTakes(u, [A], []);
    assert u + ([STAR] + []) == [STAR, A, STAR, B, STAR];
    assert [A, B] + ([A] + []) == [A, B, A];
  }

  lemma AbaIsRefused(k: nat)
    requires k + 1 < MATCHITERS_MAX
    ensures Run([A] + ([STAR] + [B, STAR]), [A, B, A], false, STAR, k) == Refuse
  {
    hide Run, Greedy, Find;
    var n := [A, B, A];
    assert n[2..3] == [A];
    FindHits(n, [A], 2);
    GreedyReaches(n, [A], Find(n, [A]), 2);
    TextGroupRuns([A], [B, STAR], n, k);
    assert [A] + [STAR] + [B, STAR] == [A] + ([STAR] + [B, STAR]) && n[3..] == [];
    TextGroupRuns([B], [], [], k + 1);
    assert [B] + [STAR] + [] == [B, STAR];
  }

  /** With a second `*`: `*a*b*` is not exact, the name `aba` matches it and is refused, because
      the first text is taken at its last place. */
  lemma SecondStarIsMissed()
    ensures !ExactFilter([STAR, A, STAR, B, STAR]) && !Exact([STAR, A, STAR, B, STAR])
    ensures Globs([STAR, A, STAR, B, STAR], [A, B, A])
    ensures Passes([STAR, A, STAR, B, STAR], [A, B, A], 0) == Refuse
  {
    hide Run, Globs, Exact, Turns, ExactTail, ExactFilter, Passes;
    var h, n := [A] + ([STAR] + [B, STAR]), [A, B, A];
    assert [STAR] + h == [STAR, A, STAR, B, STAR];
    AbaIsNotExact(h);
    StarInFront(h);
    AbaMatches();
    AbaTurns();
    AbaIsRefused(1);
    RefusedBehindStar(h, n);
  }

  lemma AbaIsNotExact(h: seq<Byte>)
    requires h == [A] + ([STAR] + [B, STAR])
    ensures !ExactTail(h)
  {
    StarAtIs(h, 1);
    assert h[2..] == [B, STAR];
  }
}
