/** What a sent frame is encrypted with: the descriptor of src/c/mac80211.c names a station, and the
    tables that the same file programs hold that station's key. */
module Protection {
  import opened Machine
  import TxFrame
  import Txd
  import TxSelect
  import Wtbl
  import Device
  import WtblRun

  /** A frame to one receiver, sent on behalf of the station or access point itself. */
  predicate ToPeer(radio: TxSelect.Radio, ctl: TxSelect.Control, frame: seq<u8>)
    requires |frame| >= 5
  {
    frame[4] % 2 == 0 && !ctl.injected && (radio.monitoring ==> radio.accessPoint)
  }

  /** What the stack guarantees of a frame, and a length that fits the byte count. */
  predicate Sendable(ctl: TxSelect.Control, frame: seq<u8>) {
    && |frame| >= 5 && ctl.hdrLen <= |frame| && ctl.hdrLen % 2 == 0
    && var n := TxFrame.Total(|frame|, ctl.hdrLen); n + Pad4(n) <= 0xffff
  }

  /** The descriptor in front of a frame names station 1 exactly for frames to the peer, and asks for
      encryption exactly when the stack gave a key. */
  lemma NamedStation(radio: TxSelect.Radio, ctl: TxSelect.Control, frame: seq<u8>)
    requires Sendable(ctl, frame)
    ensures !TxSelect.Refused(TxSelect.Params(radio, ctl, frame)) && |TxSelect.Sent(radio, ctl, frame)| >= 32
    ensures var d := Txd.DescriptorOf(TxSelect.Sent(radio, ctl, frame)[..32]);
      d.wcid == (if ToPeer(radio, ctl, frame) then 1 else 0) && (d.protect == 1 <==> ctl.encrypted)
  {
    TxSelect.SentTells(radio, ctl, frame);
  }

  /** Over every run of the table, a frame that is sent then is encrypted with what the caller last
      gave to the station that the frame is for. */
  lemma EncryptedWith(powerOn: Device.RegFile, es: seq<WtblRun.Event>, radio: TxSelect.Radio, ctl: TxSelect.Control,
                      frame: seq<u8>, d: Txd.Descriptor)
    requires WtblRun.ValidRun(es) && Sendable(ctl, frame)
    requires !TxSelect.Refused(TxSelect.Params(radio, ctl, frame)) && |TxSelect.Sent(radio, ctl, frame)| >= 32
    requires d == Txd.DescriptorOf(TxSelect.Sent(radio, ctl, frame)[..32])
    ensures d.wcid < 2
    ensures WtblRun.UseOf(Wtbl.SlotAt(WtblRun.Run(WtblRun.StartRegs(powerOn), es), d.wcid))
         == WtblRun.ExpectAll(WtblRun.InClear, es, if ToPeer(radio, ctl, frame) then 1 else 0)
  {
    NamedStation(radio, ctl, frame);
    WtblRun.KeyLookup(powerOn, es, d.wcid);
  }

  /** A frame sent to the peer right after a pairwise key was installed is encrypted with that key,
      and so is a group frame with a group key; a frame of the other kind is encrypted as before. */
  lemma NewKeyEncrypts(powerOn: Device.RegFile, es: seq<WtblRun.Event>, e: WtblRun.Event,
                       radio: TxSelect.Radio, ctl: TxSelect.Control, frame: seq<u8>, d: Txd.Descriptor)
    requires WtblRun.ValidRun(es) && e.Valid() && e.InstallKey? && e.ccmp && Sendable(ctl, frame)
    requires !TxSelect.Refused(TxSelect.Params(radio, ctl, frame)) && |TxSelect.Sent(radio, ctl, frame)| >= 32
    requires d == Txd.DescriptorOf(TxSelect.Sent(radio, ctl, frame)[..32])
    ensures d.wcid < 2 && WtblRun.ValidRun(es + [e])
    ensures var use := WtblRun.UseOf(Wtbl.SlotAt(WtblRun.Run(WtblRun.StartRegs(powerOn), es + [e]), d.wcid));
      if ToPeer(radio, ctl, frame) <==> e.pairwise || e.staKnown then use.Ccmp? && use.key == e.key
      else use == WtblRun.UseOf(Wtbl.SlotAt(WtblRun.Run(WtblRun.StartRegs(powerOn), es), d.wcid))
  {
    NamedStation(radio, ctl, frame);
    InstalledUse(powerOn, es, e, d.wcid);
  }

  lemma InstalledUse(powerOn: Device.RegFile, es: seq<WtblRun.Event>, e: WtblRun.Event, w: nat)
    requires WtblRun.ValidRun(es) && e.Valid() && e.InstallKey? && e.ccmp && w < 2
    ensures WtblRun.ValidRun(es + [e])
    ensures var use := WtblRun.UseOf(Wtbl.SlotAt(WtblRun.Run(WtblRun.StartRegs(powerOn), es + [e]), w));
      if w == 1 <==> e.pairwise || e.staKnown then use.Ccmp? && use.key == e.key
      else use == WtblRun.UseOf(Wtbl.SlotAt(WtblRun.Run(WtblRun.StartRegs(powerOn), es), w))
  {
    WtblRun.KeyLookup(powerOn, es, w);
    WtblRun.KeyLookup(powerOn, es + [e], w);
    WtblRun.ExpectLast(WtblRun.InClear, es, e, w);
  }
}
