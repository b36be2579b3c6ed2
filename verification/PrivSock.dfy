/**
The wire format of the channels between the processes of a session (`privsock.c`). A channel
carries bytes; a passed descriptor travels as one byte with rights attached to it, and is
received only by a call that asks for rights.
*/
module PrivSock {
  import opened Common

  /** A C `int`. */
  type Int32 = n: int | -0x8000_0000 <= n < 0x8000_0000

  datatype Cell = Data(byte: Byte) | Rights(fd: Int32)

  /** What a process wants to read next, given what it has read of a message. */
  datatype Want = WantByte | WantRights | Ready | Reject

  predicate Fits(w: Want, c: Cell) {
    match w
    case WantByte => c.Data?
    case WantRights => c.Rights?
    case _ => false
  }

  /** `cells` is exactly the message that a reader with this wants-function reads: each cell
      is of the kind wanted at its place, and at the end nothing more is wanted. */
  ghost predicate Framed(wants: seq<Cell> -> Want, cells: seq<Cell>) {
    && (forall i :: 0 <= i < |cells| ==> Fits(wants(cells[..i]), cells[i]))
    && wants(cells) == Ready
  }

  // ----- integers: four bytes, least significant first, two's complement

  function Unsigned(n: Int32): (u: int)
    ensures 0 <= u < 0x1_0000_0000
  {
    if n < 0 then n + 0x1_0000_0000 else n
  }

  /** `priv_sock_send_int`. */
  function IntCells(n: Int32): (r: seq<Cell>)
    ensures |r| == 4 && forall i :: 0 <= i < 4 ==> r[i].Data?
  {
    var u := Unsigned(n);
    [Data(u % 256), Data(u / 0x100 % 256), Data(u / 0x1_0000 % 256), Data(u / 0x100_0000)]
  }

  /** `priv_sock_get_int`, on the four cells it reads. */
  function IntOf(cells: seq<Cell>): Int32 {
    if |cells| == 4 && (forall i :: 0 <= i < 4 ==> cells[i].Data?) then
      var u: int := cells[0].byte + 0x100 * (cells[1].byte as int) + 0x1_0000 * (cells[2].byte as int)
                    + 0x100_0000 * (cells[3].byte as int);
      if u < 0x8000_0000 then u else u - 0x1_0000_0000
    else 0
  }

  lemma IntRoundTrip(n: Int32)
    ensures IntOf(IntCells(n)) == n
  {
    var u := Unsigned(n);
    assert u / 0x100 == (u / 0x1_0000) * 256 + u / 0x100 % 256;
    assert u / 0x1_0000 == (u / 0x100_0000) * 256 + u / 0x1_0000 % 256;
  }

  // ----- strings and buffers: the length, then the bytes

  function ByteCells(s: seq<Byte>): (r: seq<Cell>)
    ensures |r| == |s| && forall i :: 0 <= i < |s| ==> r[i] == Data(s[i])
  {
    seq(|s|, i requires 0 <= i < |s| => Data(s[i]))
  }

  function BytesOf(cells: seq<Cell>): (s: seq<Byte>)
    ensures |s| == |cells|
  {
    seq(|cells|, i requires 0 <= i < |cells| => if cells[i].Data? then cells[i].byte else 0)
  }

  /** `priv_sock_send_str` and `priv_sock_send_buf`. */
  function StrCells(s: seq<Byte>): (r: seq<Cell>)
    requires |s| < 0x8000_0000
  {
    IntCells(|s|) + ByteCells(s)
  }

  /** What is wanted inside a string of which `got` has been read, by `priv_sock_get_str` with
      `max` the longest string it accepts, or by `priv_sock_recv_buf` with `max` its buffer. */
  function StrWants(got: seq<Cell>, max: nat): Want {
    if |got| < 4 then WantByte
    else
      var len := Unsigned(IntOf(got[..4]));
      if len > max then Reject
      else if |got| - 4 < len then WantByte
      else Ready
  }

  function StrOf(cells: seq<Cell>): seq<Byte> {
    if |cells| < 4 then [] else BytesOf(cells[4..])
  }

  lemma StrRoundTrip(s: seq<Byte>, max: nat)
    requires |s| <= max && |s| < 0x8000_0000
    ensures StrOf(StrCells(s)) == s
    ensures forall i :: 0 <= i <= |StrCells(s)| ==>
      StrWants(StrCells(s)[..i], max) == if i < |StrCells(s)| then WantByte else Ready
    ensures forall i :: 0 <= i < |StrCells(s)| ==> StrCells(s)[i].Data?
  {
    var c := StrCells(s);
    assert c[4..] == ByteCells(s);
    IntRoundTrip(|s|);
    forall i | 0 <= i <= |c|
      ensures StrWants(c[..i], max) == if i < |c| then WantByte else Ready
    {
      if i >= 4 { assert c[..i][..4] == IntCells(|s|); }
    }
  }

  /** A length over the limit is refused as soon as it is known: `die` in `priv_sock_get_str`,
      `bug` in `priv_sock_recv_buf`. */
  lemma OverlongRejected(s: seq<Byte>, max: nat)
    requires max < |s| < 0x8000_0000
    ensures StrWants(StrCells(s)[..4], max) == Reject
  {
    IntRoundTrip(|s|);
    assert StrCells(s)[..4][..4] == IntCells(|s|);
  }
}
