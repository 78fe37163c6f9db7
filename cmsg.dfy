/**
 * The ancillary-data (control message) macros of `<sys/socket.h>` as the macOS
 * layer of elkodon_pal writes them: `CMSG_ALIGN`, `CMSG_SPACE`, `CMSG_LEN`,
 * `CMSG_DATA`, `CMSG_FIRSTHDR` and `CMSG_NXTHDR` (section 4.3 of RFC 2292).
 *
 * Addresses and lengths are naturals. `w` is `size_of::<usize>()`, a power of
 * two, and `h` is `size_of::<cmsghdr>()`, which is not zero; both are
 * parameters. A null pointer is `None`. The `cmsg_len` field of the header
 * stored at an address is read through `cmsgLen`.
 */
module Cmsg {
  import opened Wrappers
  import opened Math

  /** One more than the largest `uint` (`u32`) value. */
  const UINT_LIMIT: nat := 0x1_0000_0000

  /**
   * `x & !(w - 1)` for a power of two `w`: shift the bits below w out and
   * shift back in zeros. The result is x rounded down to a multiple of w.
   */
  function ClearLowBits(x: nat, w: nat): (r: nat)
    requires IsPow2(w)
    ensures r == x - x % w
    decreases w
  {
    if w == 1 then x
    else
      var r' := ClearLowBits(x / 2, w / 2);
      RoundDownDouble(x, w / 2);
      2 * r'
  }

  /** Rounding x down to a multiple of 2d is rounding x / 2 down to a multiple of d, doubled. */
  lemma RoundDownDouble(x: nat, d: nat)
    requires d >= 1
    ensures x - x % (2 * d) == 2 * (x / 2 - (x / 2) % d)
  {
    var q := x / 2;
    assert x == 2 * q + x % 2;
    assert q == (q / d) * d + q % d;
    assert x == (q / d) * (2 * d) + (2 * (q % d) + x % 2);
    DivUnique(x, 2 * d, q / d, 2 * (q % d) + x % 2);
  }

  /** `CMSG_ALIGN(len)`: len rounded up to a multiple of the word size. */
  function CmsgAlign(len: nat, w: nat): (r: nat)
    requires IsPow2(w)
    ensures r % w == 0
    ensures len <= r < len + w
  {
    RoundDownBounds(len + w - 1, w);
    ClearLowBits(len + w - 1, w)
  }

  /** Rounding down to a multiple of w gives a multiple of w that is less than w below x. */
  lemma RoundDownBounds(x: nat, w: nat)
    requires w > 0
    ensures (x - x % w) % w == 0 && x - x % w <= x < x - x % w + w
  {
    var q := x / w;
    assert x == q * w + x % w;
    DivUnique(x - x % w, w, q, 0);
  }

  /** Two multiples of w within distance w of each other are equal. */
  lemma MultiplesClose(a: nat, b: nat, w: nat)
    requires w > 0 && a % w == 0 && b % w == 0 && a <= b < a + w
    ensures a == b
  {
    if a < b {
      MultiplesApart(a, b, w);
    }
  }

  /** `CMSG_ALIGN` leaves a length unchanged exactly when it is already a multiple of the word size. */
  lemma CmsgAlignFixesAligned(len: nat, w: nat)
    requires IsPow2(w)
    ensures CmsgAlign(len, w) == len <==> len % w == 0
  {
    if len % w == 0 {
      MultiplesClose(len, CmsgAlign(len, w), w);
    }
  }

  /** `CMSG_ALIGN` is idempotent. */
  lemma CmsgAlignIdempotent(len: nat, w: nat)
    requires IsPow2(w)
    ensures CmsgAlign(CmsgAlign(len, w), w) == CmsgAlign(len, w)
  {
    CmsgAlignFixesAligned(CmsgAlign(len, w), w);
  }

  /**
   * The bit-mask rounding of `CMSG_ALIGN` and the remainder-based rounding of
   * `align` agree on every length whose `align` does not overflow.
   */
  lemma CmsgAlignIsAlign(len: nat, w: nat)
    requires IsPow2(w) && w < USIZE_LIMIT && len < USIZE_LIMIT
    requires len % w == 0 || len + w < USIZE_LIMIT
    ensures CmsgAlign(len, w) == Align(len, w)
  {
    var c, a := CmsgAlign(len, w), Align(len, w);
    if c <= a {
      MultiplesClose(c, a, w);
    } else {
      MultiplesClose(a, c, w);
    }
  }

  /**
   * `CMSG_SPACE(length)`: room for a header and `length` data bytes, both
   * padded to the word size. The `usize` sum is cast back to `uint`, which
   * keeps its low 32 bits.
   */
  function CmsgSpace(length: nat, w: nat, h: nat): (r: nat)
    requires IsPow2(w) && length < UINT_LIMIT
    ensures r < UINT_LIMIT
    ensures CmsgAlign(length, w) + CmsgAlign(h, w) < UINT_LIMIT ==>
              r == CmsgAlign(length, w) + CmsgAlign(h, w) &&
              r % w == 0 &&
              h + length <= r < h + length + 2 * w
  {
    SumOfMultiples(CmsgAlign(length, w), CmsgAlign(h, w), w);
    (CmsgAlign(length, w) + CmsgAlign(h, w)) % UINT_LIMIT
  }

  /**
   * The `as uint` cast of `CMSG_SPACE` wraps: with 8-byte words and a 16-byte
   * header, the space for the largest `uint` length is 16 bytes, less than
   * the data it is meant to hold.
   */
  lemma CmsgSpaceTruncates()
    ensures IsPow2(8)
    ensures CmsgSpace(0xFFFF_FFFF, 8, 16) == 16 < 0xFFFF_FFFF
  {
    assert IsPow2(8) by { assert IsPow2(4) && IsPow2(2) && IsPow2(1); }
    var a := CmsgAlign(0xFFFF_FFFF, 8);
    MultiplesClose(0x1_0000_0000, a, 8);
    CmsgAlignFixesAligned(16, 8);
  }

  lemma SumOfMultiples(a: nat, b: nat, w: nat)
    requires w > 0 && a % w == 0 && b % w == 0
    ensures (a + b) % w == 0
  {
    assert a == (a / w) * w && b == (b / w) * w;
    assert a + b == (a / w + b / w) * w;
    DivUnique(a + b, w, a / w + b / w, 0);
  }

  /** `CMSG_SPACE_NON_CONST(length)`: the same computation as `CMSG_SPACE`, outside a `const fn`. */
  function CmsgSpaceNonConst(length: nat, w: nat, h: nat): (r: nat)
    requires IsPow2(w) && length < UINT_LIMIT
    ensures r == CmsgSpace(length, w, h)
  {
    (CmsgAlign(length, w) + CmsgAlign(h, w)) % UINT_LIMIT
  }

  /**
   * `CMSG_LEN(length)`: the value for `cmsg_len` of a message carrying
   * `length` data bytes: the padded header plus the unpadded data. The `uint`
   * addition must not overflow.
   */
  function CmsgLen(length: nat, w: nat, h: nat): (r: nat)
    requires IsPow2(w) && CmsgAlign(h, w) + length < UINT_LIMIT
    ensures r < UINT_LIMIT
    ensures h + length <= r < h + length + w
    ensures r - length == CmsgAlign(h, w)
  {
    CmsgAlign(h, w) + length
  }

  /** The length stored in `cmsg_len` never exceeds the space the message occupies, and falls short of it by less than a word. */
  lemma CmsgLenWithinSpace(length: nat, w: nat, h: nat)
    requires IsPow2(w) && length < UINT_LIMIT
    requires CmsgAlign(length, w) + CmsgAlign(h, w) < UINT_LIMIT
    ensures CmsgLen(length, w, h) <= CmsgSpace(length, w, h) < CmsgLen(length, w, h) + w
  {}

  /** `CMSG_DATA(cmsg)`: the first data byte, just past the padded header. */
  function CmsgData(cmsg: nat, w: nat, h: nat): (r: nat)
    requires IsPow2(w)
    ensures cmsg + h <= r < cmsg + h + w
    ensures CmsgAlign(h, w) < UINT_LIMIT ==> r == cmsg + CmsgLen(0, w, h)
  {
    cmsg + CmsgAlign(h, w)
  }

  /** The two fields of `msghdr` the macros read. */
  datatype MsgHdr = MsgHdr(msgControl: nat, msgControllen: nat)
  {
    /** One past the last byte of the control buffer. */
    function End(): nat { msgControl + msgControllen }
  }

  /**
   * `CMSG_FIRSTHDR(mhdr)`: the start of the control buffer, or null when the
   * buffer is too short to hold one header.
   */
  function CmsgFirstHdr(mhdr: MsgHdr, h: nat): (r: Option<nat>)
    ensures r.None? <==> mhdr.msgControllen < h
    ensures r.Some? ==> r.value == mhdr.msgControl && r.value + h <= mhdr.End()
  {
    if mhdr.msgControllen < h then None else Some(mhdr.msgControl)
  }

  /** A header at address a lies wholly inside the control buffer: its fixed part and its padded length. */
  predicate HeaderFits(mhdr: MsgHdr, a: nat, cmsgLen: nat -> nat, w: nat, h: nat)
    requires IsPow2(w)
    ensures HeaderFits(mhdr, a, cmsgLen, w, h) ==> a + cmsgLen(a) <= mhdr.End() && a <= mhdr.End()
  {
    a + h <= mhdr.End() && a + CmsgAlign(cmsgLen(a), w) <= mhdr.End()
  }

  /**
   * `CMSG_NXTHDR(mhdr, cur)`: null when the current header's `cmsg_len` is
   * shorter than a header; otherwise the address just past the current
   * header's padded length, unless the header found there would reach past
   * the end of the control buffer.
   */
  function CmsgNxtHdr(mhdr: MsgHdr, cur: nat, cmsgLen: nat -> nat, w: nat, h: nat): (r: Option<nat>)
    requires IsPow2(w) && h > 0
    ensures cmsgLen(cur) < h ==> r.None?
    ensures r.Some? <==> cmsgLen(cur) >= h && HeaderFits(mhdr, cur + CmsgAlign(cmsgLen(cur), w), cmsgLen, w, h)
    ensures r.Some? ==> cur < r.value && r.value == cur + CmsgAlign(cmsgLen(cur), w)
    ensures r.Some? ==> HeaderFits(mhdr, r.value, cmsgLen, w, h)
  {
    if cmsgLen(cur) < h then None
    else
      var next := cur + CmsgAlign(cmsgLen(cur), w);
      var endOfMessage := mhdr.End();
      if next + h > endOfMessage then None
      else if next + CmsgAlign(cmsgLen(next), w) > endOfMessage then None
      else Some(next)
  }

  /**
   * The headers a loop `c = CMSG_NXTHDR(mhdr, c)` visits from `cur` until
   * the macro returns null, `cur` included.
   */
  function HeadersFrom(mhdr: MsgHdr, cur: nat, cmsgLen: nat -> nat, w: nat, h: nat): (hs: seq<nat>)
    requires IsPow2(w) && h > 0
    ensures |hs| >= 1 && hs[0] == cur
    ensures CmsgNxtHdr(mhdr, hs[|hs| - 1], cmsgLen, w, h).None?
    ensures forall k :: 0 < k < |hs| ==> cur < hs[k] && HeaderFits(mhdr, hs[k], cmsgLen, w, h)
    ensures forall k :: 0 <= k < |hs| - 1 ==> hs[k] < hs[k + 1] == hs[k] + CmsgAlign(cmsgLen(hs[k]), w)
    decreases if cur <= mhdr.End() then mhdr.End() - cur else 0
  {
    match CmsgNxtHdr(mhdr, cur, cmsgLen, w, h)
    case None => [cur]
    case Some(next) =>
      var rest := HeadersFrom(mhdr, next, cmsgLen, w, h);
      var hs := [cur] + rest;
      assert forall k :: 0 < k < |hs| ==> hs[k] == rest[k - 1];
      hs
  }

  /**
   * Every header of the usual `CMSG_FIRSTHDR` / `CMSG_NXTHDR` loop over a
   * message. The walk never leaves the control buffer: every header it yields
   * starts inside the buffer with room for its fixed part, every header after
   * the first also fits with its padded length, the headers are in increasing
   * order, and each one starts where the previous one's padded length ends.
   */
  function Headers(mhdr: MsgHdr, cmsgLen: nat -> nat, w: nat, h: nat): (hs: seq<nat>)
    requires IsPow2(w) && h > 0
    ensures hs == [] <==> mhdr.msgControllen < h
    ensures forall k :: 0 <= k < |hs| ==> mhdr.msgControl <= hs[k] && hs[k] + h <= mhdr.End()
    ensures forall k :: 0 < k < |hs| ==> HeaderFits(mhdr, hs[k], cmsgLen, w, h)
    ensures forall k :: 0 <= k < |hs| - 1 ==> hs[k] < hs[k + 1] == hs[k] + CmsgAlign(cmsgLen(hs[k]), w)
  {
    match CmsgFirstHdr(mhdr, h)
    case None => []
    case Some(first) => HeadersFrom(mhdr, first, cmsgLen, w, h)
  }
}
