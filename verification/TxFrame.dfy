/** Transmit encapsulation and its undoing, in place in a socket buffer: the middle of
    `mt7603_mac80211_tx` and the start of `mt7603_tx_complete` (src/c/mac80211.c). */
module TxFrame {
  import opened Machine
  import opened Txd

  // ---- What travels ----

  /** Header, `pad` zero bytes, payload. */
  function Padded(frame: seq<u8>, hdrLen: nat, pad: nat): (d: seq<u8>)
    requires hdrLen <= |frame|
    ensures |d| == |frame| + pad
  {
    frame[..hdrLen] + Zeros(pad) + frame[hdrLen..]
  }

  /** Descriptor, padded frame, zero tail. */
  function Wrap(txd: seq<u8>, frame: seq<u8>, hdrLen: nat, pad: nat, tail: nat): (d: seq<u8>)
    requires hdrLen <= |frame|
    ensures |d| == |txd| + |frame| + pad + tail
  {
    txd + Padded(frame, hdrLen, pad) + Zeros(tail)
  }

  /** For data frames the first two descriptor bytes become the length rounded up to four. */
  function Rewritten(txwi: seq<u8>, isMgmt: bool, rounded: nat): (t: seq<u8>)
    requires |txwi| == TXWI_SIZE
    ensures |t| == TXWI_SIZE
  {
    if isMgmt then txwi else ToLe16(rounded % 0x1_0000) + txwi[2..]
  }

  /** Bytes from the start of the descriptor to the end of the payload. */
  function Total(len: nat, hdrLen: nat): nat {
    TXWI_SIZE + len + HdrPad(hdrLen)
  }

  /** The bytes of the transfer. */
  function Encap(frame: seq<u8>, hdrLen: nat, txwi: seq<u8>, isMgmt: bool): seq<u8>
    requires hdrLen <= |frame| && |txwi| == TXWI_SIZE
  {
    var n := Total(|frame|, hdrLen);
    Wrap(Rewritten(txwi, isMgmt, n + Pad4(n)), frame, hdrLen, HdrPad(hdrLen), Pad4(n) + 4)
  }

  /** What is remembered with the buffer: `pkt_len | hdr_len << 16 | pad << 24`. */
  function Meta(pktLen: u16, hdrLen: u8): u32 {
    pktLen + hdrLen * 0x1_0000 + HdrPad(hdrLen) * 0x100_0000
  }

  lemma MetaFields(pktLen: u16, hdrLen: u8)
    ensures var m := Meta(pktLen, hdrLen);
      m % 0x1_0000 == pktLen && m / 0x1_0000 % 0x100 == hdrLen && m / 0x100_0000 % 0x100 == HdrPad(hdrLen)
  {
    assert Meta(pktLen, hdrLen) / 0x1_0000 == hdrLen + HdrPad(hdrLen) * 0x100;
  }

  /** Bytes from `from` on move down to `to`; the length, and so the last bytes, stay. */
  function MovedDown(data: seq<u8>, to: nat, from: nat): (d: seq<u8>)
    requires to <= from <= |data|
    ensures |d| == |data|
  {
    data[..to] + data[from..] + data[|data| - (from - to)..]
  }

  /** Overwriting with the last bytes moves them down. */
  lemma MovedBy(data: seq<u8>, to: nat, from: nat)
    requires to <= from <= |data|
    ensures data[..to] + data[from..] + data[to + |data[from..]|..] == MovedDown(data, to, from)
  {
  }

  function WithoutTxd(d: seq<u8>): seq<u8> {
    if |d| >= TXWI_SIZE then d[TXWI_SIZE..] else d
  }

  function WithoutPad(d: seq<u8>, hdrLen: nat, pad: nat): seq<u8> {
    if pad > 0 && |d| >= hdrLen + pad then MovedDown(d, hdrLen, hdrLen + pad) else d
  }

  function Cut(d: seq<u8>, origLen: nat): seq<u8> {
    if origLen > 0 && |d| > origLen then d[..origLen] else d
  }

  /** Descriptor off, padding out, tail cut. */
  function Unwrap(data: seq<u8>, origLen: nat, hdrLen: nat, pad: nat): seq<u8> {
    Cut(WithoutPad(WithoutTxd(data), hdrLen, pad), origLen)
  }

  /** What completion makes of the transfer, given what was remembered. */
  function Decap(data: seq<u8>, meta: u32): seq<u8> {
    Unwrap(data, meta % 0x1_0000, meta / 0x1_0000 % 0x100, meta / 0x100_0000 % 0x100)
  }

  /** Length of the transfer, and its zero tail. */
  lemma EncapLength(frame: seq<u8>, hdrLen: nat, txwi: seq<u8>, isMgmt: bool)
    requires hdrLen <= |frame| && |txwi| == TXWI_SIZE
    ensures var n := Total(|frame|, hdrLen); var e := Encap(frame, hdrLen, txwi, isMgmt);
      |e| == n + Pad4(n) + 4 && e[n..] == Zeros(Pad4(n) + 4)
  {
    var n := Total(|frame|, hdrLen);
    WrapTail(Rewritten(txwi, isMgmt, n + Pad4(n)), frame, hdrLen, HdrPad(hdrLen), Pad4(n) + 4);
  }

  lemma WrapTail(txd: seq<u8>, frame: seq<u8>, hdrLen: nat, pad: nat, tail: nat)
    requires hdrLen <= |frame|
    ensures Wrap(txd, frame, hdrLen, pad, tail)[|txd| + |frame| + pad..] == Zeros(tail)
    ensures Wrap(txd, frame, hdrLen, pad, tail)[..|txd|] == txd
  {
  }

  /** The byte count that the device reads: the builder's for management frames, the rounded
      length for data frames, and then only if that fits sixteen bits. */
  lemma EncapByteCount(frame: seq<u8>, hdrLen: nat, txwi: seq<u8>, isMgmt: bool)
    requires hdrLen <= |frame| && |txwi| == TXWI_SIZE
    ensures var n := Total(|frame|, hdrLen); var e := Encap(frame, hdrLen, txwi, isMgmt);
      && |e| >= 2
      && (isMgmt ==> Le16(e[0], e[1]) == Le16(txwi[0], txwi[1]))
      && (!isMgmt ==> (Le16(e[0], e[1]) == n + Pad4(n) <==> n + Pad4(n) <= 0xffff))
  {
    var n := Total(|frame|, hdrLen);
    var txd := Rewritten(txwi, isMgmt, n + Pad4(n));
    WrapTail(txd, frame, hdrLen, HdrPad(hdrLen), Pad4(n) + 4);
    var e := Encap(frame, hdrLen, txwi, isMgmt);
    assert e[0] == e[..|txd|][0] && e[1] == e[..|txd|][1];
    RewrittenCount(txwi, n + Pad4(n));
  }

  lemma RewrittenCount(txwi: seq<u8>, rounded: nat)
    requires |txwi| == TXWI_SIZE
    ensures var t := Rewritten(txwi, false, rounded); Le16(t[0], t[1]) == rounded <==> rounded <= 0xffff
  {
  }

  lemma UndoPadding(frame: seq<u8>, hdrLen: nat, pad: nat, tail: seq<u8>)
    requires hdrLen <= |frame|
    ensures MovedDown(Padded(frame, hdrLen, pad) + tail, hdrLen, hdrLen + pad)[..|frame|] == frame
  {
    var d := Padded(frame, hdrLen, pad) + tail;
    assert d[..hdrLen] == frame[..hdrLen];
    assert d[hdrLen + pad..] == frame[hdrLen..] + tail;
    assert frame == frame[..hdrLen] + frame[hdrLen..];
  }

  /** Unwrapping undoes wrapping exactly when the remembered length is the frame's own. */
  lemma UnwrapWrap(txd: seq<u8>, frame: seq<u8>, hdrLen: nat, pad: nat, tail: nat, origLen: nat)
    requires hdrLen <= |frame| && |txd| == TXWI_SIZE && tail > 0 && origLen <= |frame| && |frame| > 0
    ensures Unwrap(Wrap(txd, frame, hdrLen, pad, tail), origLen, hdrLen, pad) == frame <==> origLen == |frame|
  {
    var w := Wrap(txd, frame, hdrLen, pad, tail);
    assert w[TXWI_SIZE..] == Padded(frame, hdrLen, pad) + Zeros(tail);
    UndoPadding(frame, hdrLen, pad, Zeros(tail));
    if pad == 0 {
      assert Padded(frame, hdrLen, pad) == frame;
    }
  }

  /** Completion restores the original frame exactly when the frame's length survived being stored
      in sixteen bits. */
  lemma DecapEncap(frame: seq<u8>, hdrLen: u8, txwi: seq<u8>, isMgmt: bool)
    requires hdrLen <= |frame| && |txwi| == TXWI_SIZE && |frame| > 0
    ensures Decap(Encap(frame, hdrLen, txwi, isMgmt), Meta(|frame| % 0x1_0000, hdrLen)) == frame
       <==> |frame| < 0x1_0000
  {
    var n := Total(|frame|, hdrLen);
    var w := Wrap(Rewritten(txwi, isMgmt, n + Pad4(n)), frame, hdrLen, HdrPad(hdrLen), Pad4(n) + 4);
    assert w == Encap(frame, hdrLen, txwi, isMgmt);
    DecapMeta(w, |frame| % 0x1_0000, hdrLen);
    UnwrapIff(Rewritten(txwi, isMgmt, n + Pad4(n)), frame, hdrLen, HdrPad(hdrLen), Pad4(n) + 4);
  }

  lemma UnwrapIff(txd: seq<u8>, frame: seq<u8>, hdrLen: nat, pad: nat, tail: nat)
    requires hdrLen <= |frame| && |txd| == TXWI_SIZE && tail > 0 && |frame| > 0
    ensures Unwrap(Wrap(txd, frame, hdrLen, pad, tail), |frame| % 0x1_0000, hdrLen, pad) == frame
       <==> |frame| < 0x1_0000
  {
    UnwrapWrap(txd, frame, hdrLen, pad, tail, |frame| % 0x1_0000);
  }

  lemma DecapMeta(data: seq<u8>, pktLen: u16, hdrLen: u8)
    ensures Decap(data, Meta(pktLen, hdrLen)) == Unwrap(data, pktLen, hdrLen, HdrPad(hdrLen))
  {
    MetaFields(pktLen, hdrLen);
  }

  // ---- In place ----

  /** A write inside a window of a longer string, seen from the window. */
  lemma SpliceWithin(whole: seq<u8>, head: nat, len: nat, at: nat, b: seq<u8>)
    requires head + len <= |whole| && at + |b| <= len
    ensures var written := whole[..head + at] + b + whole[head + at + |b|..]; var d := whole[head..head + len];
      written[head..head + len] == d[..at] + b + d[at + |b|..]
  {
  }

  /** A write just in front of a window. */
  lemma PushedWithin(whole: seq<u8>, at: nat, b: seq<u8>, len: nat)
    requires at + |b| + len <= |whole|
    ensures var written := whole[..at] + b + whole[at + |b|..];
      written[at..at + |b| + len] == b + whole[at + |b|..at + |b| + len]
  {
  }

  /** A write just behind a window. */
  lemma PutWithin(whole: seq<u8>, head: nat, len: nat, b: seq<u8>)
    requires head + len + |b| <= |whole|
    ensures var written := whole[..head + len] + b + whole[head + len + |b|..];
      written[head..head + len + |b|] == whole[head..head + len] + b
  {
  }

  /** A socket buffer: `len` bytes of data at `head`, with room before and behind. */
  class Skb {
    var buf: array<u8>
    var head: nat
    var len: nat

    ghost predicate Valid()
      reads this
    {
      head + len <= buf.Length
    }

    function Data(): (d: seq<u8>)
      requires Valid()
      reads this, buf
      ensures |d| == len
    {
      buf[head..head + len]
    }

    function Tailroom(): nat
      requires Valid()
      reads this
    {
      buf.Length - head - len
    }

    /** A copy of another buffer's data with the rooms asked for (`skb_copy_expand`). */
    constructor CopyExpand(from: Skb, headroom: nat, tailroom: nat)
      requires from.Valid()
      ensures Valid() && fresh(this) && fresh(buf)
      ensures head == headroom && len == from.len && Tailroom() == tailroom && Data() == from.Data()
    {
      buf := new u8[headroom + from.len + tailroom](_ => 0);
      head, len := headroom, from.len;
      new;
      forall i | 0 <= i < from.len { buf[headroom + i] := from.buf[from.head + i]; }
    }

    /** `skb_push`, then writing the space gained. */
    method PushBytes(b: seq<u8>)
      requires Valid() && |b| <= head
      modifies this`head, this`len, buf
      ensures Valid() && head + |b| == old(head) && Tailroom() == old(Tailroom())
      ensures Data() == b + old(Data())
    {
      PushedWithin(buf[..], head - |b|, b, len);
      head, len := head - |b|, len + |b|;
      CopyBytes(buf, head, b);
    }

    /** `skb_put` followed by clearing the space gained. */
    method PutZeros(n: nat)
      requires Valid() && n <= Tailroom()
      modifies this`len, buf
      ensures Valid() && len == old(len) + n && Tailroom() == old(Tailroom()) - n
      ensures Data() == old(Data()) + Zeros(n)
    {
      var end := head + len;
      PutWithin(buf[..], head, len, Zeros(n));
      len := len + n;
      CopyBytes(buf, end, Zeros(n));
    }

    /** Overwriting part of the data. */
    method Overwrite(at: nat, b: seq<u8>)
      requires Valid() && at + |b| <= len
      modifies buf
      ensures Valid() && Data() == old(Data())[..at] + b + old(Data())[at + |b|..]
    {
      SpliceWithin(buf[..], head, len, at, b);
      CopyBytes(buf, head + at, b);
    }

    /** `memmove(data + to, data + from, len - to)` with `from` below `to`. */
    method MoveUp(to: nat, from: nat)
      requires Valid() && from <= to <= len
      modifies buf
      ensures Valid() && Data() == old(Data())[..to] + old(Data())[from..len - (to - from)]
    {
      Overwrite(to, Data()[from..from + len - to]);
    }

    /** `memmove(data + to, data + from, len - from)` with `from` above `to`. */
    method MoveDown(to: nat, from: nat)
      requires Valid() && to <= from <= len
      modifies buf
      ensures Valid() && Data() == MovedDown(old(Data()), to, from)
    {
      ghost var was := Data();
      var moved := Data()[from..];
      Overwrite(to, moved);
      MovedBy(was, to, from);
    }

    /** `memset(data + at, 0, n)`. */
    method Clear(at: nat, n: nat)
      requires Valid() && at + n <= len
      modifies buf
      ensures Valid() && Data() == old(Data())[..at] + Zeros(n) + old(Data())[at + n..]
    {
      Overwrite(at, Zeros(n));
    }

    method Pull(n: nat)
      requires Valid() && n <= len
      modifies this`head, this`len
      ensures Valid() && Data() == old(Data())[n..] && len == old(len) - n
    {
      head, len := head + n, len - n;
    }

    method Trim(n: nat)
      requires Valid() && n <= len
      modifies this`len
      ensures Valid() && Data() == old(Data())[..n]
    {
      len := n;
    }

    /** Insertion of the alignment bytes between header and payload. */
    method InsertPad(hdrLen: nat, pad: nat)
      requires Valid() && hdrLen <= len && pad <= Tailroom()
      modifies this`len, buf
      ensures Valid() && Data() == Padded(old(Data()), hdrLen, pad)
      ensures Tailroom() == old(Tailroom()) - pad && len == old(len) + pad
    {
      ghost var frame := Data();
      PutZeros(pad);
      MoveUp(hdrLen + pad, hdrLen);
      Clear(hdrLen, pad);
      assert Data()[..hdrLen] == frame[..hdrLen];
      assert Data()[hdrLen + pad..] == frame[hdrLen..];
    }

    method DropTxd()
      requires Valid()
      modifies this`head, this`len
      ensures Valid() && Data() == WithoutTxd(old(Data()))
    {
      if len >= TXWI_SIZE {
        Pull(TXWI_SIZE);
      }
    }

    method CloseGap(hdrLen: nat, pad: nat)
      requires Valid()
      modifies buf
      ensures Valid() && Data() == WithoutPad(old(Data()), hdrLen, pad)
    {
      if pad > 0 && len >= hdrLen + pad {
        MoveDown(hdrLen, hdrLen + pad);
      }
    }

    /** The undoing at completion. */
    method Restore(meta: u32)
      requires Valid()
      modifies this`head, this`len, buf
      ensures Valid() && Data() == Decap(old(Data()), meta)
    {
      var origLen, hdrLen, pad := meta % 0x1_0000, meta / 0x1_0000 % 0x100, meta / 0x100_0000 % 0x100;
      DropTxd();
      CloseGap(hdrLen, pad);
      if origLen > 0 && len > origLen {
        Trim(origLen);
      }
    }
  }
}
