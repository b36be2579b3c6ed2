/**
Reading a line from the network (`netstr.c`): peek at what has arrived, look for the
terminator, consume exactly what belongs to the line. The network decides how much each
peek shows; the line does not depend on it.
*/
module LineReader {
  import opened Common
  import opened Process

  /** The receiving end of a connection: the bytes that will still arrive, up to its end. */
  class Connection {
    var pending: seq<Byte>
    /** How much each peek has shown so far. */
    ghost var peeks: seq<nat>
    /** A peek or a read has failed. */
    ghost var broken: bool

    constructor (bytes: seq<Byte>)
      ensures pending == bytes && peeks == [] && !broken
    {
      pending := bytes;
      peeks, broken := [], false;
    }

    /** `recv` with MSG_PEEK: shows some of the next bytes, at least one unless the peer has
        closed the connection, and consumes nothing; or it fails. */
    method Peek(buf: array<Byte>, at: nat, len: nat) returns (ok: bool, n: nat)
      requires 0 < len && at + len <= buf.Length
      modifies `peeks, `broken, buf
      ensures broken == (old(broken) || !ok)
      ensures buf[..at] == old(buf[..at])
      ensures ok ==>
        && n <= len && n <= |pending| && (n == 0 <==> pending == []) && peeks == old(peeks) + [n]
        && buf[at..at + n] == pending[..n]
    {
      ok := *;
      if !ok {
        broken := true;
        return false, 0;
      }
      if pending == [] {
        n := 0;
      } else {
        n :| 1 <= n <= len && n <= |pending|;
      }
      peeks := peeks + [n];
      Store(buf, at, pending[..n]);
    }

    /** A read of bytes that a peek has shown to be there; it can fail too. */
    method Read(buf: array<Byte>, at: nat, len: nat) returns (ok: bool)
      requires at + len <= buf.Length && len <= |pending|
      modifies `pending, `broken, buf
      ensures broken == (old(broken) || !ok)
      ensures ok ==>
        && pending == old(pending)[len..]
        && buf[..at] == old(buf[..at]) && buf[at..at + len] == old(pending)[..len]
    {
      ok := *;
      if !ok {
        broken := true;
        return;
      }
      Store(buf, at, pending[..len]);
      pending := pending[len..];
    }
  }

  method Store(buf: array<Byte>, at: nat, bytes: seq<Byte>)
    requires at + |bytes| <= buf.Length
    modifies buf
    ensures buf[..at] == old(buf[..at]) && buf[at..at + |bytes|] == bytes
  {
    for i := 0 to |bytes|
      invariant buf[..at] == old(buf[..at]) && buf[at..at + i] == bytes[..i]
    {
      buf[at + i] := bytes[i];
    }
  }

  /** Position of the first `term` in `s`, or the length of `s`. */
  function FirstOf(s: seq<Byte>, term: Byte): (k: nat)
    ensures k <= |s| && term !in s[..k] && (k < |s| ==> s[k] == term)
  {
    if s == [] then 0 else if s[0] == term then 0 else
    assert s == [s[0]] + s[1..];
    1 + FirstOf(s[1..], term)
  }

  lemma NotBefore(s: seq<Byte>, term: Byte, k: nat)
    requires k <= |s| && term !in s[..k]
    ensures forall i :: 0 <= i < k ==> s[i] != term
  {
    forall i | 0 <= i < k ensures s[i] != term {
      assert s[i] == s[..k][i];
    }
  }

  lemma FirstOfUnique(s: seq<Byte>, term: Byte, k: nat)
    requires k < |s| && s[k] == term && term !in s[..k]
    ensures FirstOf(s, term) == k
  {
    var f := FirstOf(s, term);
    NotBefore(s, term, k);
    NotBefore(s, term, f);
  }

  /** `str_alloc_alt_term`: the bytes of the buffer in front of the first terminator. */
  method AllocAltTerm(buf: array<Byte>, term: Byte) returns (str: seq<Byte>)
    requires term in buf[..]
    ensures str == buf[..][..FirstOf(buf[..], term)]
  {
    var len := 0;
    while buf[len] != term
      invariant len < buf.Length && term !in buf[..len] && term in buf[len..]
      decreases buf.Length - len
    {
      assert buf[len..] == [buf[len]] + buf[len + 1..];
      assert buf[..len + 1] == buf[..len] + [buf[len]];
      len := len + 1;
    }
    assert buf[..][..len] == buf[..len];
    FirstOfUnique(buf[..], term, len);
    str := buf[..len];
  }

  datatype Outcome = Line(text: seq<Byte>) | TooLong | Closed

  /** What reading a line from the bytes `s` gives, whatever way they arrive in. */
  function LineOf(s: seq<Byte>, term: Byte, maxlen: nat): Outcome {
    var k := FirstOf(s, term);
    if k < |s| && k < maxlen then Line(s[..k]) else if |s| >= maxlen then TooLong else Closed
  }

  /** What it leaves on the connection. */
  function RestOf(s: seq<Byte>, term: Byte, maxlen: nat): seq<Byte> {
    var k := FirstOf(s, term);
    if k < |s| && k < maxlen then s[k + 1..] else if |s| >= maxlen then s[maxlen..] else []
  }

  function Sum(sizes: seq<nat>): nat {
    if sizes == [] then 0 else Sum(sizes[..|sizes| - 1]) + sizes[|sizes| - 1]
  }

  lemma SumOfMore(sizes: seq<nat>, n: nat)
    ensures Sum(sizes + [n]) == Sum(sizes) + n && (sizes + [n])[..|sizes|] == sizes
  {
    assert (sizes + [n])[..|sizes|] == sizes;
  }

  lemma NothingShown()
    ensures Sum([]) == 0
  {
  }

  /** `str_netfd_alloc`; `shown` are the sizes of its peeks. The count returned with a line is what
      the last read consumed: the line and its terminator, less what the peeks before the last one
      showed. */
  method ReadLine(net: Connection, term: Byte, readbuf: array<Byte>)
      returns (st: Status, ret: int, str: seq<Byte>, ghost shown: seq<nat>)
    requires !net.broken
    modifies net, readbuf
    ensures st == if net.broken then Die else Running
    ensures st.Running? ==> net.peeks == old(net.peeks) + shown
    ensures st.Running? ==>
            match LineOf(old(net.pending), term, readbuf.Length)
            case Line(text) =>
              && shown != [] && 1 <= ret <= shown[|shown| - 1]
              && ret == |text| + 1 - Sum(shown[..|shown| - 1]) && str == text
            case TooLong => ret == -1 && str == [] && Sum(shown) == readbuf.Length
            case Closed => ret == 0 && str == [] && Sum(shown) == |old(net.pending)|
    ensures st.Running? ==> net.pending == RestOf(old(net.pending), term, readbuf.Length)
  {
    ghost var s := net.pending;
    var maxlen := readbuf.Length;
    var readpos, left := 0, maxlen;
    hide Sum;
    assert Sum([]) == 0 by { NothingShown(); }
    str := [];
    shown := [];
    st := Running;
    while true
      invariant readpos + left == maxlen && 0 <= readpos <= maxlen && readpos <= |s| && str == [] && st.Running?
      invariant Sum(shown) == readpos && net.peeks == old(net.peeks) + shown && !net.broken
      invariant net.pending == s[readpos..] && readbuf[..readpos] == s[..readpos] && term !in s[..readpos]
      decreases left
    {
      st := if readpos + left != maxlen then Bug else Running;
      if st.Bug? { return; }
      if left == 0 {
        NoLine(s, term, maxlen, readpos);
        return Running, -1, [], shown;
      }
      var ok, n := net.Peek(readbuf, readpos, left);
      if !ok { return Die, 0, [], shown; }
      SumOfMore(shown, n);
      shown := shown + [n];
      if n == 0 {
        NoLine(s, term, maxlen, readpos);
        return Running, 0, [], shown;
      }
      hide FirstOf, LineOf, RestOf;
      SliceOfRest(s, readpos, n);
      var i := Scan(readbuf, readpos, n, term);
      StillNone(s, readbuf[readpos..readpos + n], term, readpos, i);
      if i < n {
        ok, str := TakeLine(net, term, readbuf, readpos, i, s);
        if !ok { return Die, 0, [], shown; }
        return Running, i + 1, str, shown;
      }
      left := left - n;
      ok := Consume(net, readbuf, readpos, n, s);
      if !ok { return Die, 0, [], shown; }
      readpos := readpos + n;
    }
  }

  /** The search for the terminator in what a peek has shown. */
  method Scan(buf: array<Byte>, at: nat, n: nat, term: Byte) returns (i: nat)
    requires at + n <= buf.Length
    ensures i <= n && term !in buf[at..at + n][..i] && (i < n ==> buf[at..at + n][i] == term)
  {
    i := 0;
    while i < n && buf[at + i] != term
      invariant i <= n && term !in buf[at..at + n][..i]
    {
      assert buf[at..at + n][..i + 1] == buf[at..at + n][..i] + [buf[at + i]];
      i := i + 1;
    }
  }

  /** A read of what a peek has shown of `s`, behind what has been read before. */
  method Consume(net: Connection, buf: array<Byte>, at: nat, len: nat, ghost s: seq<Byte>) returns (ok: bool)
    requires at + len <= buf.Length && at + len <= |s| && net.pending == s[at..] && buf[..at] == s[..at]
    modifies net`pending, net`broken, buf
    ensures net.broken == (old(net.broken) || !ok)
    ensures ok ==> net.pending == s[at + len..] && buf[..at + len] == s[..at + len]
  {
    SliceOfRest(s, at, len);
    ok := net.Read(buf, at, len);
    if ok { Joined(buf, s, at, len); }
  }

  lemma StillNone(s: seq<Byte>, view: seq<Byte>, term: Byte, at: nat, i: nat)
    requires i <= |view| && at + |view| <= |s| && view == s[at..at + |view|]
    requires term !in s[..at] && term !in view[..i]
    ensures term !in s[..at + i] && (i < |view| ==> s[at + i] == view[i])
  {
    assert s[..at + i] == s[..at] + view[..i];
  }

  /** Reading up to the terminator, and taking the line out of the buffer. */
  method TakeLine(net: Connection, term: Byte, readbuf: array<Byte>, readpos: nat, i: nat, ghost s: seq<Byte>)
      returns (ok: bool, str: seq<Byte>)
    requires readpos + i < readbuf.Length && readpos + i < |s|
    requires net.pending == s[readpos..] && readbuf[..readpos] == s[..readpos]
    requires term !in s[..readpos + i] && s[readpos + i] == term
    modifies net`pending, net`broken, readbuf
    ensures net.broken == (old(net.broken) || !ok)
    ensures ok ==>
      && str == s[..readpos + i] && LineOf(s, term, readbuf.Length) == Line(str)
      && net.pending == RestOf(s, term, readbuf.Length)
  {
    str := [];
    ok := Consume(net, readbuf, readpos, i + 1, s);
    if !ok { return; }
    assert readbuf[..][..readpos + i + 1] == readbuf[..readpos + i + 1];
    FoundLine(s, readbuf[..], term, readpos + i);
    str := AllocAltTerm(readbuf, term);
  }

  lemma SliceOfRest(s: seq<Byte>, at: nat, n: nat)
    requires at + n <= |s|
    ensures s[at..][..n] == s[at..at + n] && s[at..][n..] == s[at + n..]
  {
  }

  /** What has been read before and what is read now stand one behind the other. */
  lemma Joined(buf: array<Byte>, s: seq<Byte>, at: nat, n: nat)
    requires at + n <= buf.Length && at + n <= |s| && buf[..at] == s[..at] && buf[at..at + n] == s[at..at + n]
    ensures buf[..at + n] == s[..at + n]
  {
    assert buf[..at + n] == buf[..at] + buf[at..at + n];
    assert s[..at + n] == s[..at] + s[at..at + n];
  }

  lemma FoundLine(s: seq<Byte>, buf: seq<Byte>, term: Byte, k: nat)
    requires k < |s| && k < |buf| && buf[..k + 1] == s[..k + 1] && s[k] == term && term !in s[..k]
    ensures LineOf(s, term, |buf|) == Line(s[..k]) && RestOf(s, term, |buf|) == s[k + 1..]
    ensures term in buf && FirstOf(buf, term) == k && buf[..k] == s[..k]
  {
    FirstOfUnique(s, term, k);
    assert buf[k] == buf[..k + 1][k] == s[..k + 1][k];
    assert buf[..k] == buf[..k + 1][..k] == s[..k + 1][..k];
    FirstOfUnique(buf, term, k);
  }

  lemma NoLine(s: seq<Byte>, term: Byte, maxlen: nat, seen: nat)
    requires seen <= |s| && term !in s[..seen] && (seen == |s| || seen == maxlen)
    ensures seen == maxlen ==> LineOf(s, term, maxlen) == TooLong && RestOf(s, term, maxlen) == s[maxlen..]
    ensures seen == |s| < maxlen ==> LineOf(s, term, maxlen) == Closed
  {
    var k := FirstOf(s, term);
    NotBefore(s, term, seen);
  }

  /** Reading undoes writing: a text that fits and does not contain the terminator, sent with
      one behind it, is read back whole, and what follows stays for the next line. */
  lemma LineRoundTrip(text: seq<Byte>, term: Byte, rest: seq<Byte>, maxlen: nat)
    requires term !in text && |text| < maxlen
    ensures LineOf(text + [term] + rest, term, maxlen) == Line(text)
    ensures RestOf(text + [term] + rest, term, maxlen) == rest
  {
    var s := text + [term] + rest;
    assert s[..|text|] == text && s[|text| + 1..] == rest;
    FirstOfUnique(s, term, |text|);
  }
}
