/**
The choice of a passive port (`vsf_privop_pasv_listen` in `privops.c`): a range that is
valid for every configuration, and a draw of 16 random bits scaled onto it.
*/
module PasvPort {

  /** A configuration value: `unsigned int`. */
  type Tunable = n: int | 0 <= n < 0x1_0000_0000
  const IPPORT_RESERVED := 1024
  const TOP_PORT := 65535
  const DRAWS := 65536

  /** The lower end of the range. */
  function MinPort(pasvMin: Tunable): int {
    if IPPORT_RESERVED < pasvMin <= TOP_PORT then pasvMin else IPPORT_RESERVED
  }

  /** The upper end of the range. */
  function MaxPort(pasvMin: Tunable, pasvMax: Tunable): int {
    if MinPort(pasvMin) <= pasvMax < TOP_PORT then pasvMax else TOP_PORT
  }

  /** The port for the random value `r`: truncation of an exact computation in `double`,
      since no intermediate value needs more than 32 significant bits. */
  function Draw(min: int, max: int, r: int): int {
    (min as real + (r as real / 65536.0) * (max as real - min as real + 1.0)).Floor
  }

  lemma DrawIsScaling(min: int, max: int, r: int)
    ensures Draw(min, max, r) == min + (r * (max - min + 1)) / DRAWS
  {
    var n := max - min + 1;
    var q, m := (r * n) / DRAWS, (r * n) % DRAWS;
    assert (r as real / 65536.0) * (n as real) == (r * n) as real / 65536.0;
    assert r * n == q * DRAWS + m;
    assert (r * n) as real / 65536.0 == q as real + m as real / 65536.0;
  }

  /** Whatever is configured, the range is not empty and has no reserved port, and every
      draw lies in it. */
  lemma EveryDrawInRange(pasvMin: Tunable, pasvMax: Tunable, r: int)
    requires 0 <= r < DRAWS
    ensures var min, max := MinPort(pasvMin), MaxPort(pasvMin, pasvMax);
            && IPPORT_RESERVED <= min <= max <= TOP_PORT
            && min <= Draw(min, max, r) <= max
  {
    DrawInRange(MinPort(pasvMin), MaxPort(pasvMin, pasvMax), r);
  }

  lemma DrawInRange(min: int, max: int, r: int)
    requires 0 <= r < DRAWS && min <= max
    ensures min <= Draw(min, max, r) <= max
  {
    hide Draw;
    DrawIsScaling(min, max, r);
    ScalingInRange(r, max - min + 1);
  }

  lemma ScalingInRange(r: int, n: int)
    requires 0 <= r < DRAWS && n > 0
    ensures 0 <= (r * n) / DRAWS < n
  {
    ProductInRange(r, n);
    QuotientInRange(r * n, n);
  }

  lemma ProductInRange(r: int, n: int)
    requires 0 <= r < DRAWS && n > 0
    ensures 0 <= r * n <= 65535 * n
  {
    NotNegative(r, n);
    NotNegative(65535 - r, n);
  }

  lemma NotNegative(a: int, b: int)
    requires a >= 0 && b >= 0
    ensures a * b >= 0
  {
  }

  lemma QuotientInRange(x: int, n: int)
    requires 0 <= x <= 65535 * n && n > 0
    ensures 0 <= x / DRAWS < n
  {
  }

  // ----- uniformity

  /** The draws that give port `min + k`. */
  ghost function DrawsFor(min: int, max: int, k: int): set<int> {
    set r | 0 <= r < DRAWS && Draw(min, max, r) == min + k
  }

  /** The least `r` with `r * n >= x`. */
  function CeilDiv(x: int, n: int): int
    requires n > 0
  {
    (x + n - 1) / n
  }

  lemma CeilDivIsLeast(x: int, n: int, r: int)
    requires n > 0
    ensures CeilDiv(x, n) <= r <==> x <= r * n
  {
    var c := CeilDiv(x, n);
    assert c * n <= x + n - 1 < c * n + n;
    if c <= r { assert c * n <= r * n; } else { assert (r + 1) * n <= c * n; }
  }

  lemma {:induction false} IntervalSize(s: set<int>, a: int, b: int)
    requires a <= b && forall r :: r in s <==> a <= r < b
    ensures |s| == b - a
    decreases b - a
  {
    if a == b {
      forall r ensures r !in s {}
      assert s == {};
    } else {
      IntervalSize(s - {a}, a + 1, b);
      assert |s - {a}| == |s| - 1;
    }
  }

  /** Every port of the range is hit by as many of the 65536 draws as any other, to within
      one: the quotient of 65536 by the size of the range, rounded down or up. */
  lemma DrawIsUniform(min: int, max: int, k: int)
    requires IPPORT_RESERVED <= min <= max <= TOP_PORT && 0 <= k <= max - min
    ensures var n := max - min + 1; DRAWS / n <= |DrawsFor(min, max, k)| <= CeilDiv(DRAWS, n)
  {
    hide Draw;
    var n := max - min + 1;
    var a, b := CeilDiv(k * DRAWS, n), CeilDiv((k + 1) * DRAWS, n);
    CeilDivIsLeast(k * DRAWS, n, 0 - 1);
    assert (k + 1) * DRAWS <= DRAWS * n;
    CeilDivIsLeast((k + 1) * DRAWS, n, DRAWS);
    forall r ensures r in DrawsFor(min, max, k) <==> a <= r < b {
      DrawIsScaling(min, max, r);
      CeilDivIsLeast(k * DRAWS, n, r);
      CeilDivIsLeast((k + 1) * DRAWS, n, r);
    }
    WidthOfStep(k * DRAWS, DRAWS, n);
    IntervalSize(DrawsFor(min, max, k), a, b);
  }

  lemma WidthOfStep(x: int, d: int, n: int)
    requires n > 0 && d >= 0
    ensures d / n <= CeilDiv(x + d, n) - CeilDiv(x, n) <= CeilDiv(d, n)
  {
    var a, b := CeilDiv(x, n), CeilDiv(x + d, n);
    CeilDivIsLeast(x, n, a);
    CeilDivIsLeast(x + d, n, b);
    CeilDivIsLeast(d, n, CeilDiv(d, n));
    assert (a + CeilDiv(d, n)) * n == a * n + CeilDiv(d, n) * n;
    CeilDivIsLeast(x + d, n, a + CeilDiv(d, n));
    assert (b - d / n) * n == b * n - (d / n) * n;
    assert (d / n) * n <= d;
    CeilDivIsLeast(x, n, b - d / n);
  }

  /** The ports that can be drawn are those of the configured range: from the configured lower end if
      that is a port that is not reserved, and to the configured upper end if that is a port and not
      below it. */
  lemma ConfiguredPorts(pasvMin: Tunable, pasvMax: Tunable, p: int)
    ensures var low := if IPPORT_RESERVED <= pasvMin <= TOP_PORT then pasvMin else IPPORT_RESERVED;
      var high := if low <= pasvMax <= TOP_PORT then pasvMax else TOP_PORT;
      low <= p <= high <==> exists r :: 0 <= r < DRAWS && Draw(MinPort(pasvMin), MaxPort(pasvMin, pasvMax), r) == p
  {
    hide Draw;
    var low := if IPPORT_RESERVED <= pasvMin <= TOP_PORT then pasvMin else IPPORT_RESERVED;
    var high := if low <= pasvMax <= TOP_PORT then pasvMax else TOP_PORT;
    assert MinPort(pasvMin) == low && MaxPort(pasvMin, pasvMax) == high;
    if low <= p <= high {
      var r := DrawnAt(low, high, p);
    }
    if r :| 0 <= r < DRAWS && Draw(low, high, r) == p {
      DrawInRange(low, high, r);
    }
  }

  /** Some random value gives the port. */
  lemma DrawnAt(min: int, max: int, p: int) returns (r: int)
    requires IPPORT_RESERVED <= min <= p <= max <= TOP_PORT
    ensures 0 <= r < DRAWS && Draw(min, max, r) == p
  {
    hide Draw;
    var n := max - min + 1;
    DrawIsUniform(min, max, p - min);
    assert DRAWS / n >= 1 by { assert DRAWS >= n; }
    assert DrawsFor(min, max, p - min) != {};
    r :| r in DrawsFor(min, max, p - min);
  }
}
