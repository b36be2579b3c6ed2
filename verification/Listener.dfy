/**
Connection accounting in the standalone listener (`standalone.c`): a child counter, a table
of connections per address and a table of the address of every child. The invariant says
that the three always agree; it is kept by every step of the accept loop, so none of the
traps in the bookkeeping can be reached.
*/
module Listener {
  import opened Common
  import opened Process
  import opened HashTable

  /** A raw address, as many bytes as `s_ipaddr_size`. */
  type Ip = seq<Byte>
  /** A process id: a positive C `int`. */
  type Pid = p: int | 0 < p < 0x8000_0000 witness 1
  const TABLE_SIZE: nat := 256
  const WRAP: nat := 0x1_0000_0000

  // ----- the hash functions

  function Xor(x: nat, y: nat): nat
    decreases x + y
  {
    if x == 0 && y == 0 then 0 else (x + y) % 2 + 2 * Xor(x / 2, y / 2)
  }

  /** The byte shift that position `i` of an address gets: 24, 16, 8, 0 and round again. */
  function Shifted(b: Byte, i: nat): nat {
    if i % 4 == 0 then b * 0x100_0000 else if i % 4 == 1 then b * 0x1_0000 else if i % 4 == 2 then b * 0x100 else b
  }

  function Folded(ip: Ip, n: nat): nat
    requires n <= |ip|
  {
    if n == 0 then 0 else Xor(Folded(ip, n - 1), Shifted(ip[n - 1], n - 1))
  }

  /** `hash_ip`. */
  function HashIp(buckets: nat, ip: Ip): nat {
    if buckets == 0 then 0 else Folded(ip, |ip|) % buckets
  }

  /** `hash_pid`. */
  function HashPid(buckets: nat, pid: Pid): nat {
    if buckets == 0 then 0 else pid % buckets
  }

  /** The low eight bits of an exclusive or are that of the low eight bits. */
  lemma {:induction false} XorLow(x: nat, y: nat, k: nat, m: nat)
    requires m == Power(k)
    ensures Xor(x, y) % m == Xor(x % m, y % m) % m
    decreases k
  {
    if k > 0 {
      var h := m / 2;
      assert m == 2 * h && h == Power(k - 1);
      XorLow(x / 2, y / 2, k - 1, h);
      Halves(x, h);
      Halves(y, h);
      XorHalves(x, y);
      XorHalves(x % m, y % m);
      ParityOfSum(x, y, m);
      hide Xor, Power;
      Halves(Xor(x, y), h);
      Halves(Xor(x % m, y % m), h);
    } else {
      assert m == 1;
    }
  }

  function Power(k: nat): (m: nat)
    ensures m > 0
  {
    if k == 0 then 1 else 2 * Power(k - 1)
  }

  lemma Halves(x: nat, h: nat)
    requires h > 0
    ensures x % (2 * h) == x % 2 + 2 * (x / 2 % h)
    ensures x % (2 * h) % 2 == x % 2 && x % (2 * h) / 2 == x / 2 % h
  {
    var q, r := x / 2 / h, x / 2 % h;
    DivMod(x / 2, h);
    var low := x % 2 + 2 * r;
    assert q * (2 * h) == 2 * (q * h);
    Remainder(x, q, 2 * h, low);
    LowBit(x % 2, r);
  }

  lemma DivMod(x: nat, h: nat)
    requires h > 0
    ensures x == x / h * h + x % h && x % h < h
  {
  }

  lemma LowBit(b: nat, r: nat)
    requires b < 2
    ensures (b + 2 * r) % 2 == b && (b + 2 * r) / 2 == r
  {
  }

  lemma Remainder(x: nat, q: nat, m: nat, r: nat)
    requires m > 0 && x == q * m + r && r < m
    ensures x % m == r
  {
    var d := x / m - q;
    assert d * m == r - x % m;
    SmallMultiple(d, m);
  }

  lemma SmallMultiple(d: int, m: nat)
    ensures (d > 0 ==> d * m >= m) && (d < 0 ==> d * m + m <= 0)
  {
  }

  lemma XorStep(x: nat, y: nat)
    ensures Xor(x, y) == (x + y) % 2 + 2 * Xor(x / 2, y / 2)
  {
    if x == 0 && y == 0 { assert x / 2 == 0 && y / 2 == 0; }
  }

  lemma XorHalves(x: nat, y: nat)
    ensures Xor(x, y) % 2 == (x + y) % 2 && Xor(x, y) / 2 == Xor(x / 2, y / 2)
  {
    hide Xor;
    XorStep(x, y);
    LowBit((x + y) % 2, Xor(x / 2, y / 2));
  }

  lemma ParityOfSum(x: nat, y: nat, m: nat)
    requires m > 0 && m % 2 == 0
    ensures (x % m + y % m) % 2 == (x + y) % 2
  {
    ParityKept(x, m);
    ParityKept(y, m);
    SameParity(x % m, x, y % m, y);
  }

  lemma SameParity(a: nat, b: nat, c: nat, d: nat)
    requires a % 2 == b % 2 && c % 2 == d % 2
    ensures (a + c) % 2 == (b + d) % 2
  {
  }

  lemma ParityKept(x: nat, m: nat)
    requires m > 0 && m % 2 == 0
    ensures x % m % 2 == x % 2
  {
    Halves(x, m / 2);
  }

  lemma {:induction false} XorWithZero(x: nat)
    ensures Xor(x, 0) == x && Xor(0, x) == x
  {
    if x > 0 { XorWithZero(x / 2); }
  }

  /** The low eight bits. */
  function Low(x: nat): nat {
    x % 256
  }

  lemma LowOfXor(x: nat, y: nat)
    ensures Low(Xor(x, y)) == Low(Xor(Low(x), Low(y)))
  {
    assert Power(8) == 256 by { assert Power(4) == 16; }
    XorLow(x, y, 8, 256);
  }

  lemma LowOfLow(x: nat)
    ensures Low(Low(x)) == Low(x) && (x < 256 ==> Low(x) == x)
  {
  }

  /** Only every fourth byte is not shifted out of the low eight bits. */
  lemma ShiftedLow(b: Byte, i: nat)
    ensures Low(Shifted(b, i)) == if i % 4 == 3 then b else 0
  {
    assert b * 0x100_0000 == 256 * (b * 0x1_0000) && b * 0x1_0000 == 256 * (b * 0x100);
  }

  lemma FoldLow(ip: Ip, n: nat)
    requires 0 < n <= |ip|
    ensures Low(Folded(ip, n)) ==
      if (n - 1) % 4 == 3 then Low(Xor(Low(Folded(ip, n - 1)), ip[n - 1])) else Low(Folded(ip, n - 1))
  {
    hide Xor, Low, Shifted;
    var before, byte := Folded(ip, n - 1), Shifted(ip[n - 1], n - 1);
    LowOfXor(before, byte);
    ShiftedLow(ip[n - 1], n - 1);
    XorWithZero(Low(before));
    LowOfLow(before);
  }

  /** With 256 buckets an IPv4 address falls into that of its last byte: the others are shifted out. */
  lemma BucketOfIpv4(ip: Ip)
    requires |ip| == 4
    ensures HashIp(TABLE_SIZE, ip) == ip[3]
  {
    assert Low(Folded(ip, 4)) == ip[3] by {
      hide Xor, Low;
      FoldLow(ip, 1);
      FoldLow(ip, 2);
      FoldLow(ip, 3);
      FoldLow(ip, 4);
      LowOfLow(0);
      LowOfLow(ip[3]);
      XorWithZero(ip[3]);
    }
  }

  // ----- counting

  /** The tracked children that came from `ip`. */
  ghost function From(pids: map<Pid, Ip>, ip: Ip): set<Pid> {
    set p | p in pids && pids[p] == ip
  }

  /** The counts table holds exactly the addresses with children, each with their number. */
  ghost predicate Tallies(counts: map<Ip, nat>, pids: map<Pid, Ip>) {
    forall ip :: |From(pids, ip)| == if ip in counts then counts[ip] else 0
  }

  /** No address is kept with a count of zero. */
  ghost predicate NoZero(counts: map<Ip, nat>) {
    forall ip :: ip in counts ==> counts[ip] > 0
  }

  lemma FromAdd(pids: map<Pid, Ip>, pid: Pid, ip: Ip, x: Ip)
    requires pid !in pids
    ensures |From(pids[pid := ip], x)| == |From(pids, x)| + if x == ip then 1 else 0
  {
    if x == ip {
      assert From(pids[pid := ip], x) == From(pids, x) + {pid};
    } else {
      assert From(pids[pid := ip], x) == From(pids, x);
    }
  }

  lemma FromRemove(pids: map<Pid, Ip>, pid: Pid, x: Ip)
    requires pid in pids
    ensures |From(pids - {pid}, x)| == |From(pids, x)| - if x == pids[pid] then 1 else 0
  {
    if x == pids[pid] {
      assert From(pids - {pid}, x) == From(pids, x) - {pid};
    } else {
      assert From(pids - {pid}, x) == From(pids, x);
    }
  }

  lemma {:induction false} FewIn(s: set<int>, n: nat)
    requires forall x :: x in s ==> 0 < x <= n
    ensures |s| <= n
    decreases n
  {
    if n == 0 {
      assert forall x :: x in s ==> false;
      assert s == {};
    } else {
      FewIn(s - {n}, n - 1);
      assert s <= (s - {n}) + {n};
    }
  }

  /** Process ids are too few for the counters to wrap around. */
  lemma FewChildren(pids: map<Pid, Ip>, ip: Ip)
    ensures |pids| < 0x8000_0000 && |From(pids, ip)| <= |pids|
  {
    var s: set<int> := set p | p in pids :: p as int;
    assert s == pids.Keys;
    FewIn(s, 0x7fff_ffff);
    SubsetSize(From(pids, ip), pids.Keys);
  }

  lemma {:induction false} SubsetSize<T>(a: set<T>, b: set<T>)
    requires a <= b
    ensures |a| <= |b|
  {
    if a != {} {
      var x :| x in a;
      SubsetSize(a - {x}, b - {x});
    }
  }

  // ----- the two operations on the counts table

  /** The counts table: bucketed by `hash_ip`. */
  ghost predicate IsCountTable(t: Hash<Ip, nat>) {
    t.buckets == TABLE_SIZE && t.hashFunc == HashIp
  }

  /** `handle_ip_count`: one more connection from `ip`; returns the new count. */
  method HandleIpCount(t: Hash<Ip, nat>, ip: Ip) returns (st: Status, count: nat)
    requires t.Valid() && IsCountTable(t) && (ip in t.content ==> t.content[ip] + 1 < WRAP)
    modifies t.Repr
    ensures t.Valid() && st.Running? && fresh(t.Repr - old(t.Repr))
    ensures count == (if ip in old(t.content) then old(t.content)[ip] else 0) + 1
    ensures t.content == old(t.content)[ip := count]
  {
    hide Hash.Valid;
    var found;
    st, found := t.Lookup(ip);
    if found == null {
      count := 1;
      st := t.Add(ip, count);
    } else {
      count := (found.value + 1) % WRAP;
      t.SetValue(found, count);
    }
  }

  /** `drop_ip_count`: one connection less; a missing address or a zero count is a trap. */
  method DropIpCount(t: Hash<Ip, nat>, ip: Ip) returns (st: Status)
    requires t.Valid() && IsCountTable(t)
    modifies t.Repr
    ensures t.Valid() && fresh(t.Repr - old(t.Repr))
    ensures st == if ip in old(t.content) && old(t.content)[ip] > 0 then Running else Bug
    ensures t.content == if st.Running? then Dropped(old(t.content), ip) else old(t.content)
  {
    hide Hash.Valid;
    var found;
    st, found := t.Lookup(ip);
    if found == null { return Bug; }
    var count := found.value;
    if count == 0 { return Bug; }
    count := count - 1;
    t.SetValue(found, count);
    if count == 0 {
      st := t.Free(ip);
    }
  }

  ghost function Dropped(counts: map<Ip, nat>, ip: Ip): map<Ip, nat>
    requires ip in counts && counts[ip] > 0
  {
    if counts[ip] == 1 then counts - {ip} else counts[ip := counts[ip] - 1]
  }

  // ----- what the operations do to the tally

  lemma TallyAdd(counts: map<Ip, nat>, pids: map<Pid, Ip>, pid: Pid, ip: Ip)
    requires Tallies(counts, pids) && NoZero(counts) && pid !in pids
    ensures var n := if ip in counts then counts[ip] else 0;
            Tallies(counts[ip := n + 1], pids[pid := ip]) && NoZero(counts[ip := n + 1])
  {
    var counts' := counts[ip := (if ip in counts then counts[ip] else 0) + 1];
    forall x ensures |From(pids[pid := ip], x)| == if x in counts' then counts'[x] else 0 {
      FromAdd(pids, pid, ip, x);
    }
  }

  lemma TallyRemove(counts: map<Ip, nat>, pids: map<Pid, Ip>, pid: Pid)
    requires Tallies(counts, pids) && NoZero(counts) && pid in pids
    ensures pids[pid] in counts && counts[pids[pid]] > 0
    ensures Tallies(Dropped(counts, pids[pid]), pids - {pid}) && NoZero(Dropped(counts, pids[pid]))
  {
    var ip := pids[pid];
    assert pid in From(pids, ip);
    var counts' := Dropped(counts, ip);
    forall x ensures |From(pids - {pid}, x)| == if x in counts' then counts'[x] else 0 {
      FromRemove(pids, pid, x);
    }
  }

  /** Counting one connection up and down again leaves the table as it was. */
  lemma DropUndoesCount(counts: map<Ip, nat>, ip: Ip)
    requires NoZero(counts)
    ensures Dropped(counts[ip := (if ip in counts then counts[ip] else 0) + 1], ip) == counts
  {
  }

  // ----- the listener

  /** What the system lets happen while the listener waits: children die, or a connection
      arrives and `fork` answers a new process id or an error. */
  datatype Event = Reaped(pids: seq<Pid>) | AcceptFailed | Forked(ip: Ip, pid: Pid) | ForkFailed(ip: Ip)

  ghost predicate PossibleReaps(pids: map<Pid, Ip>, ps: seq<Pid>)
    decreases |ps|
  {
    ps == [] || (ps[0] in pids && PossibleReaps(pids - {ps[0]}, ps[1..]))
  }

  ghost function Without(pids: map<Pid, Ip>, ps: seq<Pid>): map<Pid, Ip>
    decreases |ps|
  {
    if ps == [] then pids else Without(pids - {ps[0]}, ps[1..])
  }

  /** `waitpid` reports tracked children, each once; `fork` never returns a tracked process id. */
  ghost predicate Possible(pids: map<Pid, Ip>, e: Event) {
    match e
    case Reaped(ps) => PossibleReaps(pids, ps)
    case Forked(_, pid) => pid !in pids
    case _ => true
  }

  /** The children tracked after an event. */
  ghost function Tracked(pids: map<Pid, Ip>, e: Event): map<Pid, Ip> {
    match e
    case Reaped(ps) => Without(pids, ps)
    case Forked(ip, pid) => pids[pid := ip]
    case _ => pids
  }

  /** A run the system can produce from `pids`, and the children tracked after it. */
  ghost predicate PossibleRun(pids: map<Pid, Ip>, es: seq<Event>)
    decreases |es|
  {
    es == [] || (Possible(pids, es[0]) && PossibleRun(Tracked(pids, es[0]), es[1..]))
  }

  ghost function TrackedAfter(pids: map<Pid, Ip>, es: seq<Event>): map<Pid, Ip>
    decreases |es|
  {
    if es == [] then pids else TrackedAfter(Tracked(pids, es[0]), es[1..])
  }

  class Server {
    var children: nat                  // s_children
    const ipCount: Hash<Ip, nat>       // s_p_ip_count_hash
    const pidIp: Hash<Pid, Ip>         // s_p_pid_ip_hash

    ghost predicate Valid()
      reads this, ipCount, pidIp, ipCount.Repr, pidIp.Repr
    {
      ipCount.Valid() && pidIp.Valid() && ipCount.Repr !! pidIp.Repr && this !in ipCount.Repr + pidIp.Repr &&
      IsCountTable(ipCount) && pidIp.buckets == TABLE_SIZE && pidIp.hashFunc == HashPid
    }

    /** The invariant of the accept point: the counter is the number of tracked children, and
        the counts table tallies them by address. */
    ghost predicate Accounted()
      reads this, ipCount, pidIp
    {
      children == |pidIp.content| && Tallies(ipCount.content, pidIp.content) && NoZero(ipCount.content)
    }

    constructor ()
      ensures Valid() && Accounted() && pidIp.content == map[]
      ensures fresh(ipCount.Repr) && fresh(pidIp.Repr)
    {
      hide Hash.Valid;
      children := 0;
      ipCount := new Hash<Ip, nat>(TABLE_SIZE, HashIp);
      pidIp := new Hash<Pid, Ip>(TABLE_SIZE, HashPid);
      new;
      forall ip ensures |From(pidIp.content, ip)| == 0 {
        assert From(pidIp.content, ip) == {};
      }
    }

    /** The part of an iteration before `fork`: both counters go up, and are what the new
        child is told. */
    method Admit(ip: Ip) returns (st: Status, numChildren: nat, numThisIp: nat)
      requires Valid() && Accounted()
      modifies this, ipCount.Repr
      ensures Valid() && st.Running? && fresh(ipCount.Repr - old(ipCount.Repr))
      ensures pidIp.content == old(pidIp.content) && Admitted(ip, old(ipCount.content))
      ensures numChildren == children && numThisIp == |From(pidIp.content, ip)| + 1
    {
      hide Hash.Valid;
      FewChildren(pidIp.content, ip);
      children := (children + 1) % WRAP;
      numChildren := children;
      st, numThisIp := HandleIpCount(ipCount, ip);
    }

    /** One iteration after a connection from `ip` was accepted and `fork` returned `forked`:
        positive in the parent, negative on failure. */
    method Serve(ip: Ip, forked: int) returns (st: Status, numChildren: nat, numThisIp: nat)
      requires Valid() && Accounted() && -0x8000_0000 <= forked < 0x8000_0000 && forked != 0
      requires forked > 0 ==> forked !in pidIp.content
      modifies this, ipCount.Repr, pidIp.Repr
      ensures Valid() && Accounted() && st.Running?
      ensures fresh(ipCount.Repr - old(ipCount.Repr)) && fresh(pidIp.Repr - old(pidIp.Repr))
      ensures pidIp.content == if forked > 0 then old(pidIp.content)[forked := ip] else old(pidIp.content)
      ensures forked > 0 ==> numChildren == |pidIp.content| && numThisIp == |From(pidIp.content, ip)|
    {
      hide Hash.Valid;
      ghost var counts, pids := ipCount.content, pidIp.content;
      st, numChildren, numThisIp := Admit(ip);
      if forked > 0 {
        st := Track(ip, forked, counts);
      } else {
        st := Undo(ip, counts);
      }
    }

    /** After a successful `fork`: remember where the child came from. */
    method Track(ip: Ip, pid: Pid, ghost counts: map<Ip, nat>) returns (st: Status)
      requires Valid() && Admitted(ip, counts) && pid !in pidIp.content
      modifies pidIp.Repr
      ensures Valid() && Accounted() && st.Running? && fresh(pidIp.Repr - old(pidIp.Repr))
      ensures pidIp.content == old(pidIp.content)[pid := ip]
      ensures |From(pidIp.content, ip)| == |From(old(pidIp.content), ip)| + 1
    {
      hide Hash.Valid, Tallies, NoZero;
      ghost var pids := pidIp.content;
      TallyAdd(counts, pids, pid, ip);
      FromAdd(pids, pid, ip, ip);
      st := pidIp.Add(pid, ip);
      assert pidIp.content.Keys == pids.Keys + {pid};
    }

    /** After a failed `fork`: take both counts back. */
    method Undo(ip: Ip, ghost counts: map<Ip, nat>) returns (st: Status)
      requires Valid() && Admitted(ip, counts)
      modifies this, ipCount.Repr
      ensures Valid() && Accounted() && st.Running? && fresh(ipCount.Repr - old(ipCount.Repr))
      ensures pidIp.content == old(pidIp.content)
    {
      hide Hash.Valid, Tallies, Dropped;
      DropUndoesCount(counts, ip);
      FewChildren(pidIp.content, ip);
      children := (children + WRAP - 1) % WRAP;
      st := DropIpCount(ipCount, ip);
    }

    /** Between the counting and the outcome of `fork`, `counts` being the table before. */
    ghost predicate Admitted(ip: Ip, counts: map<Ip, nat>)
      reads this, ipCount, pidIp
    {
      children == |pidIp.content| + 1 && Tallies(counts, pidIp.content) && NoZero(counts) &&
      ipCount.content == counts[ip := (if ip in counts then counts[ip] else 0) + 1]
    }

    /** The body of `handle_sigchld` for one reaped child. */
    method Reap(pid: Pid) returns (st: Status)
      requires Valid() && Accounted() && pid in pidIp.content
      modifies this, ipCount.Repr, pidIp.Repr
      ensures Valid() && Accounted() && st.Running?
      ensures fresh(ipCount.Repr - old(ipCount.Repr)) && fresh(pidIp.Repr - old(pidIp.Repr))
      ensures pidIp.content == old(pidIp.content) - {pid}
    {
      hide Hash.Valid, Tallies, NoZero, Dropped, From;
      ghost var counts, pids := ipCount.content, pidIp.content;
      TallyRemove(counts, pids, pid);
      FewChildren(pids, pids[pid]);
      assert pids.Keys == (pids - {pid}).Keys + {pid};
      children := (children + WRAP - 1) % WRAP;
      assert children == |pids - {pid}|;
      var found;
      st, found := pidIp.Lookup(pid);
      st := DropIpCount(ipCount, found.value);
      st := pidIp.Free(pid);
    }

    /** `handle_sigchld`: reap until no dead child is left. */
    method HandleSigchld(reaped: seq<Pid>) returns (st: Status)
      requires Valid() && Accounted() && Possible(pidIp.content, Reaped(reaped))
      modifies this, ipCount.Repr, pidIp.Repr
      ensures Valid() && Accounted() && st.Running?
      ensures fresh(ipCount.Repr - old(ipCount.Repr)) && fresh(pidIp.Repr - old(pidIp.Repr))
      ensures pidIp.content == Tracked(old(pidIp.content), Reaped(reaped))
    {
      hide Hash.Valid;
      var i := 0;
      st := Running;
      while i < |reaped|
        invariant 0 <= i <= |reaped| && Valid() && Accounted() && st.Running?
        invariant fresh(ipCount.Repr - old(ipCount.Repr)) && fresh(pidIp.Repr - old(pidIp.Repr))
        invariant PossibleReaps(pidIp.content, reaped[i..])
        invariant Without(pidIp.content, reaped[i..]) == Without(old(pidIp.content), reaped)
      {
        assert reaped[i..][1..] == reaped[i + 1..];
        st := Reap(reaped[i]);
        i := i + 1;
      }
    }

    /** The accept loop over any run the system can produce: no trap is reached, and at the
        accept point the books agree with the children that are alive. */
    method Run(es: seq<Event>) returns (st: Status)
      requires Valid() && Accounted() && PossibleRun(pidIp.content, es)
      modifies this, ipCount.Repr, pidIp.Repr
      ensures st.Running? && Valid() && Accounted()
      ensures fresh(ipCount.Repr - old(ipCount.Repr)) && fresh(pidIp.Repr - old(pidIp.Repr))
      ensures pidIp.content == TrackedAfter(old(pidIp.content), es)
      decreases |es|
    {
      hide Hash.Valid;
      if es == [] { return Running; }
      match es[0] {
        case Reaped(ps) =>
          st := HandleSigchld(ps);
        case AcceptFailed =>
        case Forked(ip, pid) =>
          var children, thisIp;
          st, children, thisIp := Serve(ip, pid);
        case ForkFailed(ip) =>
          var children, thisIp;
          st, children, thisIp := Serve(ip, -1);
      }
      st := Run(es[1..]);
    }
  }
}
