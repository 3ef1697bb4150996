/** Information elements of management frames: the walk of `parse_beacon` and the builders of probe
    requests and beacons (src/rust/src/sta.rs, src/rust/src/ap.rs). */
module Elements {
  import opened Machine

  const SSID: u8 := 0
  const RATES: u8 := 1
  const DS: u8 := 3
  const MAX_SSID := 32
  const SUPPORTED: seq<u8> := [0x82, 0x84, 0x8b, 0x96, 0x24, 0x30, 0x48, 0x6c]

  datatype Element = Element(id: u8, body: seq<u8>)

  /** An element as it is written. The length is narrowed to one byte. */
  function Encoded(e: Element): (b: seq<u8>)
    ensures |b| == 2 + |e.body|
  {
    [e.id, |e.body| % 0x100] + e.body
  }

  function EncodedAll(es: seq<Element>): seq<u8> {
    if es == [] then [] else Encoded(es[0]) + EncodedAll(es[1..])
  }

  /** An element that the walk can read. */
  predicate Readable(e: Element) {
    1 <= |e.body| <= 255
  }

  /** Where the walk ends: an empty element, or one that is not all there. */
  predicate Stops(b: seq<u8>) {
    |b| < 2 || b[1] == 0 || 2 + b[1] > |b|
  }

  /** The elements that the walk visits. */
  function Walk(b: seq<u8>): (es: seq<Element>)
    ensures forall i :: 0 <= i < |es| ==> Readable(es[i])
    decreases |b|
  {
    if Stops(b) then [] else [Element(b[0], b[2..2 + b[1]])] + Walk(b[2 + b[1]..])
  }

  lemma WalkOne(e: Element, rest: seq<u8>)
    requires Readable(e)
    ensures Walk(Encoded(e) + rest) == [e] + Walk(rest)
  {
    var b := Encoded(e) + rest;
    assert b[0] == e.id && b[1] == |e.body|;
    assert b[2..2 + b[1]] == e.body && b[2 + b[1]..] == rest;
  }

  /** The walk reads back any list of non-empty elements, whatever unreadable rest follows. */
  lemma {:induction false} WalkInvertsEncoding(es: seq<Element>, rest: seq<u8>)
    requires Stops(rest) && forall i :: 0 <= i < |es| ==> Readable(es[i])
    ensures Walk(EncodedAll(es) + rest) == es
    decreases |es|
  {
    if es == [] {
      assert EncodedAll(es) + rest == rest;
    } else {
      assert EncodedAll(es) + rest == Encoded(es[0]) + (EncodedAll(es[1..]) + rest);
      WalkOne(es[0], EncodedAll(es[1..]) + rest);
      WalkInvertsEncoding(es[1..], rest);
    }
  }

  // ---- What a beacon says ----

  function Cut(body: seq<u8>): (s: seq<u8>)
    ensures |s| <= MAX_SSID
  {
    if |body| <= MAX_SSID then body else body[..MAX_SSID]
  }

  /** The name, given what earlier elements said. */
  function SsidFrom(s: seq<u8>, es: seq<Element>): seq<u8>
    decreases |es|
  {
    if es == [] then s
    else SsidFrom(if es[0].id == SSID && s == [] then Cut(es[0].body) else s, es[1..])
  }

  /** The channel, given what earlier elements said. */
  function ChannelFrom(c: u8, es: seq<Element>): u8
    requires forall i :: 0 <= i < |es| ==> Readable(es[i])
    decreases |es|
  {
    if es == [] then c
    else
      assert Readable(es[0]);
      ChannelFrom(if es[0].id == DS then es[0].body[0] else c, es[1..])
  }

  lemma {:induction false} SsidSticks(s: seq<u8>, es: seq<Element>)
    requires s != []
    ensures SsidFrom(s, es) == s
    decreases |es|
  {
    if es != [] {
      SsidSticks(s, es[1..]);
    }
  }

  /** The first name element counts, cut to 32 bytes. */
  lemma {:induction false} FirstSsidWins(es: seq<Element>, k: nat)
    requires forall i :: 0 <= i < |es| ==> Readable(es[i])
    requires k <= |es| && forall i :: 0 <= i < k ==> es[i].id != SSID
    requires k < |es| ==> es[k].id == SSID
    ensures SsidFrom([], es) == if k < |es| then Cut(es[k].body) else []
    decreases |es|
  {
    if k > 0 {
      FirstSsidWins(es[1..], k - 1);
    } else if es != [] {
      SsidSticks(Cut(es[0].body), es[1..]);
    }
  }

  /** The last channel element counts, and only its first byte. */
  lemma {:induction false} LastChannelWins(c: u8, es: seq<Element>, k: int)
    requires forall i :: 0 <= i < |es| ==> Readable(es[i])
    requires -1 <= k < |es| && (k >= 0 ==> es[k].id == DS) && forall i :: k < i < |es| ==> es[i].id != DS
    ensures ChannelFrom(c, es) == if k >= 0 then es[k].body[0] else c
    decreases |es|
  {
    if es != [] {
      var next := if es[0].id == DS then es[0].body[0] else c;
      LastChannelWins(next, es[1..], if k >= 0 then k - 1 else -1);
    }
  }

  datatype BssInfo = BssInfo(bssid: seq<u8>, ssid: seq<u8>, channel: u8, capability: u16)

  /** What a beacon frame says: the header, and then its elements. */
  function Parsed(frame: seq<u8>): Result<BssInfo> {
    if |frame| < 36 then Err(EINVAL)
    else
      var es := Walk(frame[36..]);
      Ok(BssInfo(frame[16..22], SsidFrom([], es), ChannelFrom(0, es), Le16(frame[34], frame[35])))
  }

  lemma PartsOf(a: seq<u8>, bssid: Mac, m: seq<u8>, c: seq<u8>, tail: seq<u8>, f: seq<u8>)
    requires |a| == 16 && |m| == 12 && |c| == 2 && f == a + bssid + m + c + tail
    ensures |f| >= 36 && f[16..22] == bssid && f[34] == c[0] && f[35] == c[1] && f[36..] == tail
  {
  }

  /** A frame from any access point, with any elements in any order: address, name, channel and
      capability come from their places, whatever is in the others. */
  lemma FrameRead(a: seq<u8>, bssid: Mac, m: seq<u8>, c: seq<u8>, tail: seq<u8>, f: seq<u8>, es: seq<Element>)
    requires |a| == 16 && |m| == 12 && |c| == 2 && f == a + bssid + m + c + tail && Walk(tail) == es
    ensures Parsed(f) == Ok(BssInfo(bssid, SsidFrom([], es), ChannelFrom(0, es), Le16(c[0], c[1])))
  {
    PartsOf(a, bssid, m, c, tail, f);
  }

  /** One element further. */
  lemma NextElement(frame: seq<u8>, pos: nat, len: nat, s: seq<u8>, c: u8)
    requires pos + 2 <= |frame| && len == frame[pos + 1] != 0 && pos + 2 + len <= |frame|
    ensures var id, body, es := frame[pos], frame[pos + 2..pos + 2 + len], Walk(frame[pos + 2 + len..]);
      && SsidFrom(s, Walk(frame[pos..])) == SsidFrom(if id == SSID && s == [] then Cut(body) else s, es)
      && ChannelFrom(c, Walk(frame[pos..])) == ChannelFrom(if id == DS then body[0] else c, es)
  {
    var rest, es := frame[pos..], Walk(frame[pos + 2 + len..]);
    assert rest[2..2 + len] == frame[pos + 2..pos + 2 + len] && rest[2 + len..] == frame[pos + 2 + len..];
    var e := Element(frame[pos], frame[pos + 2..pos + 2 + len]);
    assert Walk(rest) == [e] + es;
    assert ([e] + es)[1..] == es;
  }

  /** What the rest of the frame adds to what is known is what the whole frame says. */
  ghost predicate Remaining(frame: seq<u8>, pos: nat, s: seq<u8>, c: u8)
    requires 36 <= pos <= |frame|
  {
    && SsidFrom(s, Walk(frame[pos..])) == SsidFrom([], Walk(frame[36..]))
    && ChannelFrom(c, Walk(frame[pos..])) == ChannelFrom(0, Walk(frame[36..]))
  }

  /** `parse_beacon`. */
  method ParseBeacon(frame: seq<u8>) returns (r: Result<BssInfo>)
    ensures r == Parsed(frame)
  {
    if |frame| < 36 {
      return Err(EINVAL);
    }
    var ssid: seq<u8>, channel: u8 := [], 0;
    var pos := 36;
    while pos + 2 <= |frame|
      invariant 36 <= pos <= |frame| && Remaining(frame, pos, ssid, channel)
    {
      var id, len := frame[pos], frame[pos + 1];
      if len == 0 || pos + 2 + len > |frame| {
        break;
      }
      NextElement(frame, pos, len, ssid, channel);
      var body := frame[pos + 2..pos + 2 + len];
      if id == SSID && ssid == [] {
        ssid := Cut(body);
      } else if id == DS {
        channel := body[0];
      }
      pos := pos + 2 + len;
    }
    assert Stops(frame[pos..]);
    return Ok(BssInfo(frame[16..22], ssid, channel, Le16(frame[34], frame[35])));
  }

  // ---- Builders ----

  const BROADCAST: seq<u8> := [0xff, 0xff, 0xff, 0xff, 0xff, 0xff]

  type Mac = m: seq<u8> | |m| == 6 witness [0, 0, 0, 0, 0, 0]

  function MgmtHeader(control: u8, source: Mac, bss: Mac): (h: seq<u8>)
    ensures |h| == 24
  {
    [control, 0, 0, 0] + BROADCAST + source + bss + [0, 0]
  }

  /** Timestamp, an interval of 100 and the capability of an access point. */
  const FIXED: seq<u8> := [0, 0, 0, 0, 0, 0, 0, 0, 0x64, 0, 1, 0]

  function Beacon(ssid: seq<u8>, bssid: Mac, channel: u8): (b: seq<u8>)
    ensures |b| == 51 + |ssid|
  {
    MgmtHeader(0x80, bssid, bssid) + FIXED
    + Encoded(Element(SSID, ssid)) + Encoded(Element(RATES, SUPPORTED)) + Encoded(Element(DS, [channel]))
  }

  function ProbeRequest(ssid: seq<u8>, source: Mac): (b: seq<u8>)
    ensures |b| == 36 + |ssid|
  {
    MgmtHeader(0x40, source, BROADCAST) + Encoded(Element(SSID, ssid)) + Encoded(Element(RATES, SUPPORTED))
  }

  /** One element, which does not reach behind `end`. */
  method PutElement(out: array<u8>, pos: nat, e: Element, ghost end: nat) returns (next: nat)
    requires pos + 2 + |e.body| <= end <= out.Length
    modifies out
    ensures next == pos + 2 + |e.body|
    ensures out[..next] == old(out[..pos]) + Encoded(e) && out[end..] == old(out[end..])
  {
    ghost var before := out[..];
    next := PutBytes(out, pos, Encoded(e));
    SameTail(before, out[..], next, end);
  }

  /** Clearing the frame, then its header, the name and the supported rates. */
  method PutNamed(out: array<u8>, head: seq<u8>, ssid: seq<u8>, total: nat) returns (pos: nat)
    requires |head| + |ssid| + 12 <= total <= out.Length
    modifies out
    ensures pos == |head| + |ssid| + 12 && out[total..] == old(out[total..])
    ensures out[..pos] == head + Encoded(Element(SSID, ssid)) + Encoded(Element(RATES, SUPPORTED))
  {
    pos := PutBytes(out, 0, Zeros(total));
    ghost var cleared := out[..];
    pos := PutBytes(out, 0, head);
    SameTail(cleared, out[..], pos, total);
    assert out[..pos] == head;
    pos := PutElement(out, pos, Element(SSID, ssid), total);
    pos := PutElement(out, pos, Element(RATES, SUPPORTED), total);
  }

  /** `build_beacon`: without room nothing is written, and nothing is written behind the frame. */
  method BuildBeacon(ssid: seq<u8>, bssid: Mac, channel: u8, out: array<u8>) returns (r: Result<nat>)
    modifies out
    ensures r == if out.Length < 51 + |ssid| then Err(ENOSPC) else Ok(51 + |ssid|)
    ensures r.Ok? ==> out[..] == Beacon(ssid, bssid, channel) + old(out[51 + |ssid|..])
    ensures r.Err? ==> out[..] == old(out[..])
  {
    var total := 51 + |ssid|;
    if out.Length < total {
      return Err(ENOSPC);
    }
    var pos := PutNamed(out, MgmtHeader(0x80, bssid, bssid) + FIXED, ssid, total);
    pos := PutElement(out, pos, Element(DS, [channel]), total);
    assert out[..] == out[..total] + out[total..];
    return Ok(total);
  }

  /** `build_probe_request`. */
  method BuildProbeRequest(ssid: seq<u8>, source: Mac, out: array<u8>) returns (r: Result<nat>)
    modifies out
    ensures r == if out.Length < 36 + |ssid| then Err(ENOSPC) else Ok(36 + |ssid|)
    ensures r.Ok? ==> out[..] == ProbeRequest(ssid, source) + old(out[36 + |ssid|..])
    ensures r.Err? ==> out[..] == old(out[..])
  {
    var total := 36 + |ssid|;
    if out.Length < total {
      return Err(ENOSPC);
    }
    var pos := PutNamed(out, MgmtHeader(0x40, source, BROADCAST), ssid, total);
    assert out[..] == out[..total] + out[total..];
    return Ok(total);
  }

  // ---- The frames as bytes ----

  /** Broadcast, from the access point itself, an interval of 100, and then name, rates and channel. */
  lemma BeaconBytes(ssid: seq<u8>, bssid: Mac, channel: u8)
    ensures Beacon(ssid, bssid, channel)
         == [0x80, 0, 0, 0, 0xff, 0xff, 0xff, 0xff, 0xff, 0xff] + bssid + bssid
            + [0, 0, 0, 0, 0, 0, 0, 0, 0, 0, 100, 0, 1, 0] + [0, |ssid| % 256] + ssid
            + [1, 8, 0x82, 0x84, 0x8b, 0x96, 0x24, 0x30, 0x48, 0x6c, 3, 1, channel]
  {
  }

  /** Broadcast, from the station, to any access point. */
  lemma ProbeBytes(ssid: seq<u8>, source: Mac)
    ensures ProbeRequest(ssid, source)
         == [0x40, 0, 0, 0, 0xff, 0xff, 0xff, 0xff, 0xff, 0xff] + source + [0xff, 0xff, 0xff, 0xff, 0xff, 0xff, 0, 0]
            + [0, |ssid| % 256] + ssid + [1, 8, 0x82, 0x84, 0x8b, 0x96, 0x24, 0x30, 0x48, 0x6c]
  {
  }

  // ---- Round trips ----

  /** What the walk makes of a name element followed by readable elements. */
  lemma WalkNamed(ssid: seq<u8>, es: seq<Element>)
    requires forall i :: 0 <= i < |es| ==> Readable(es[i])
    ensures 1 <= |ssid| <= 255 ==> Walk(Encoded(Element(SSID, ssid)) + EncodedAll(es)) == [Element(SSID, ssid)] + es
    ensures ssid == [] ==> Walk(Encoded(Element(SSID, ssid)) + EncodedAll(es)) == []
    ensures |ssid| > 255 ==> var w := Walk(Encoded(Element(SSID, ssid)) + EncodedAll(es));
              w == [] || (w[0].id == SSID && |w[0].body| < |ssid|)
  {
    var b := Encoded(Element(SSID, ssid)) + EncodedAll(es);
    assert b[1] == |ssid| % 0x100;
    if 1 <= |ssid| <= 255 {
      WalkOne(Element(SSID, ssid), EncodedAll(es));
      WalkInvertsEncoding(es, []);
      assert EncodedAll(es) + [] == EncodedAll(es);
    }
  }

  lemma EncodedTwo(a: Element, b: Element)
    ensures EncodedAll([a]) == Encoded(a) && EncodedAll([a, b]) == Encoded(a) + Encoded(b)
  {
    assert EncodedAll([a, b]) == Encoded(a) + EncodedAll([b]);
    assert EncodedAll([b]) == Encoded(b) + EncodedAll([]);
    assert EncodedAll([a]) == Encoded(a) + EncodedAll([]);
  }

  lemma AfterHead(head: seq<u8>, x: seq<u8>, y: seq<u8>, z: seq<u8>)
    ensures (head + x + y + z)[|head|..] == x + (y + z) && (head + x + y + z)[..|head|] == head
  {
  }

  /** A probe request names the network and the rates exactly for names of 1 to 255 bytes. */
  lemma ProbeRoundTrip(ssid: seq<u8>, source: Mac)
    ensures Walk(ProbeRequest(ssid, source)[24..]) == [Element(SSID, ssid), Element(RATES, SUPPORTED)] <==> 1 <= |ssid| <= 255
  {
    var name, rates := Element(SSID, ssid), Element(RATES, SUPPORTED);
    WalkNamed(ssid, [rates]);
    EncodedTwo(rates, rates);
    AfterHead(MgmtHeader(0x40, source, BROADCAST), Encoded(name), Encoded(rates), []);
    assert Encoded(rates) + [] == Encoded(rates);
    assert ProbeRequest(ssid, source) + [] == ProbeRequest(ssid, source);
  }

  lemma HeadFields(bssid: Mac)
    ensures var head := MgmtHeader(0x80, bssid, bssid) + FIXED;
      |head| == 36 && head[16..22] == bssid && Le16(head[34], head[35]) == 1
  {
    var m := MgmtHeader(0x80, bssid, bssid);
    assert m[16..22] == bssid;
    assert (m + FIXED)[16..22] == m[16..22];
  }

  lemma BeaconParts(ssid: seq<u8>, bssid: Mac, channel: u8)
    ensures var b := Beacon(ssid, bssid, channel);
      && b[16..22] == bssid && Le16(b[34], b[35]) == 1
      && b[36..] == Encoded(Element(SSID, ssid)) + EncodedAll([Element(RATES, SUPPORTED), Element(DS, [channel])])
  {
    var name, rates, ds := Element(SSID, ssid), Element(RATES, SUPPORTED), Element(DS, [channel]);
    var head := MgmtHeader(0x80, bssid, bssid) + FIXED;
    HeadFields(bssid);
    EncodedTwo(rates, ds);
    AfterHead(head, Encoded(name), Encoded(rates), Encoded(ds));
    InHead(Beacon(ssid, bssid, channel), head);
  }

  lemma InHead(b: seq<u8>, head: seq<u8>)
    requires |head| == 36 <= |b| && b[..36] == head
    ensures b[16..22] == head[16..22] && b[34] == head[34] && b[35] == head[35]
  {
    assert b[16..22] == b[..36][16..22];
  }

  /** Parsing a beacon that the driver built returns what it was built from exactly for names of 1
      to 32 bytes. The one exception is no name and channel 0, which is what the parser assumes
      when it stops at the empty element. */
  lemma BeaconRoundTrip(ssid: seq<u8>, bssid: Mac, channel: u8)
    ensures Parsed(Beacon(ssid, bssid, channel)) == Ok(BssInfo(bssid, ssid, channel, 1))
       <==> 1 <= |ssid| <= MAX_SSID || (ssid == [] && channel == 0)
  {
    var es := [Element(RATES, SUPPORTED), Element(DS, [channel])];
    BeaconParts(ssid, bssid, channel);
    WalkNamed(ssid, es);
    var walked := Walk(Encoded(Element(SSID, ssid)) + EncodedAll(es));
    if 1 <= |ssid| <= 255 {
      FirstSsidWins(walked, 0);
      LastChannelWins(0, walked, 2);
    } else if ssid != [] && walked != [] {
      FirstSsidWins(walked, 0);
    }
  }
}
