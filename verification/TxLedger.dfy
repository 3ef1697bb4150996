/** Who owns a socket buffer that was handed over for transmission (src/c/mac80211.c): every
    interleaving of submissions, failing allocations, failing submissions and completions. */
module TxLedger {
  import opened Machine
  import opened Txd
  import opened TxFrame
  import opened TxSelect

  /** How a buffer left the driver: freed, or reported to the stack with the bytes it then held. */
  datatype Fate = Freed | Reported(bytes: seq<u8>, acked: bool)

  datatype Release<+T> = Release(tok: T, fate: Fate)

  /** A transfer under way: the buffer, its bytes and what was remembered with it. */
  datatype Flight<+T> = Flight(tok: T, data: seq<u8>, meta: u32, noAck: bool)

  function Toks<T>(r: seq<Release<T>>): set<T> {
    set i | 0 <= i < |r| :: r[i].tok
  }

  function Flying<T>(f: map<nat, Flight<T>>): set<T> {
    set u | u in f :: f[u].tok
  }

  ghost predicate Once<T>(r: seq<Release<T>>) {
    forall i, j :: 0 <= i < j < |r| ==> r[i].tok != r[j].tok
  }

  ghost predicate OneToOne<T>(f: map<nat, Flight<T>>) {
    forall u, v :: u in f && v in f && f[u].tok == f[v].tok ==> u == v
  }

  /** `made` maps every buffer the driver was ever given, or made as a copy, to the frame that it
      stands for. `flights` maps anchored transfers to their buffers. `held` is the buffer that a
      submission in progress works on. */
  datatype Ledger<!T> = Ledger(made: map<T, seq<u8>>, flights: map<nat, Flight<T>>, released: seq<Release<T>>,
                               held: Option<T>)
  {
    function InFlight(): set<T> {
      Flying(flights)
    }

    function Gone(): set<T> {
      Toks(released)
    }

    function Held(): set<T> {
      if held.Some? then {held.value} else {}
    }

    /** Every buffer is in exactly one place, and was released at most once. */
    ghost predicate Conserved() {
      && made.Keys == InFlight() + Gone() + Held()
      && InFlight() !! Gone() && Held() !! InFlight() && Held() !! Gone()
      && OneToOne(flights) && Once(released)
    }
  }

  function Empty<T>(): Ledger<T> {
    Ledger(map[], map[], [], None)
  }

  /** Taking a buffer over from the stack. */
  function Accept<T>(l: Ledger<T>, t: T, frame: seq<u8>): Ledger<T> {
    l.(made := l.made[t := frame], held := Some(t))
  }

  /** Giving the held buffer up. */
  function FreeHeld<T>(l: Ledger<T>): Ledger<T>
    requires l.held.Some?
  {
    l.(held := None, released := l.released + [Release(l.held.value, Freed)])
  }

  /** Where room is missing, a copy replaces the held buffer, which is freed whether or not the
      copy could be made. */
  function Replace<T>(l: Ledger<T>, needed: bool, copy: Option<T>): Ledger<T>
    requires l.held.Some? ==> l.held.value in l.made
  {
    if l.held.None? || !needed then l
    else
      var freed := FreeHeld(l);
      if copy.None? then freed else Accept(freed, copy.value, l.made[l.held.value])
  }

  /** The transfer starts, or the held buffer is freed. */
  function Launch<T>(l: Ledger<T>, urb: Option<nat>, submitted: bool, data: seq<u8>, meta: u32, noAck: bool): Ledger<T> {
    if l.held.None? then l
    else if urb.None? || !submitted then FreeHeld(l)
    else l.(held := None, flights := l.flights[urb.value := Flight(l.held.value, data, meta, noAck)])
  }

  /** The end of a transfer takes its buffer out of flight. */
  function Land<T>(l: Ledger<T>, urb: nat, fate: Fate): Ledger<T>
    requires urb in l.flights
  {
    l.(flights := l.flights - {urb}, released := l.released + [Release(l.flights[urb].tok, fate)])
  }

  // ---- One submission, one completion ----

  /** A call of the transmit entry point, with the outcome of every call it makes in turn. */
  datatype Request<+T> = Request(tok: T, frame: seq<u8>, headroom: nat, tailroom: nat, radio: Radio, ctl: Control,
                                 padCopy: Option<T>, headCopy: Option<T>, tailCopy: Option<T>,
                                 urb: Option<nat>, submitted: bool)

  /** What the stack guarantees of a frame: it holds its whole header, which holds an address. */
  predicate WellFormed(frame: seq<u8>, ctl: Control) {
    |frame| >= 5 && ctl.hdrLen <= |frame|
  }

  predicate NeedsPad(hdrLen: nat, tailroom: nat) {
    tailroom < HdrPad(hdrLen)
  }

  /** Room behind the data once the alignment bytes are in. */
  function TailAfterPad(hdrLen: nat, tailroom: nat): nat {
    if NeedsPad(hdrLen, tailroom) then 0 else tailroom - HdrPad(hdrLen)
  }

  function TailNeeded(len: nat, hdrLen: nat): nat {
    Pad4(Total(len, hdrLen)) + 4
  }

  predicate NeedsTail(len: nat, hdrLen: nat, tailroom: nat) {
    TailAfterPad(hdrLen, tailroom) < TailNeeded(len, hdrLen)
  }

  /** The three reallocations in turn: for alignment bytes, for the descriptor, for the tail. */
  function Prepared<T>(l: Ledger<T>, q: Request<T>): Ledger<T>
    requires l.held.Some? ==> l.held.value in l.made
  {
    var a := Replace(l, NeedsPad(q.ctl.hdrLen, q.tailroom), q.padCopy);
    var b := Replace(a, q.headroom < TXWI_SIZE, q.headCopy);
    Replace(b, NeedsTail(|q.frame|, q.ctl.hdrLen, q.tailroom), q.tailCopy)
  }

  /** The radio is down, or the descriptor builder refuses. */
  predicate Declined<T>(q: Request<T>)
    requires WellFormed(q.frame, q.ctl)
  {
    !q.radio.running || Refused(Params(q.radio, q.ctl, q.frame))
  }

  function Transmitted<T>(l: Ledger<T>, q: Request<T>): Ledger<T>
    requires WellFormed(q.frame, q.ctl)
  {
    var a := Accept(l, q.tok, q.frame);
    if Declined(q) then FreeHeld(a)
    else Launch(Prepared(a, q), q.urb, q.submitted, Sent(q.radio, q.ctl, q.frame),
                Meta(|q.frame| % 0x1_0000, q.ctl.hdrLen), q.ctl.noAck)
  }

  /** Beacons, which the driver made itself, have frame control byte 0x80. */
  predicate IsBeacon(frame: seq<u8>) {
    |frame| >= 2 && frame[0] / 4 == 0x20
  }

  /** Restored bytes are reported, unless they are a beacon or the radio is down. */
  function FateOf(d: seq<u8>, running: bool, ok: bool, noAck: bool): Fate {
    if running && !IsBeacon(d) then Reported(d, ok && !noAck) else Freed
  }

  /** What becomes of a buffer when its transfer ends. */
  function Outcome<T>(f: Flight<T>, running: bool, ok: bool): Fate {
    FateOf(Decap(f.data, f.meta), running, ok, f.noAck)
  }

  /** New buffers and transfers differ from all known ones. */
  predicate Fresh<T>(l: Ledger<T>, q: Request<T>) {
    && q.tok !in l.made
    && (q.padCopy.Some? ==> q.padCopy.value !in l.made && q.padCopy.value != q.tok)
    && (q.headCopy.Some? ==> q.headCopy.value !in l.made && q.headCopy.value != q.tok && q.headCopy != q.padCopy)
    && (q.tailCopy.Some? ==> q.tailCopy.value !in l.made && q.tailCopy.value != q.tok && q.tailCopy != q.padCopy
                             && q.tailCopy != q.headCopy)
    && (q.urb.Some? ==> q.urb.value !in l.flights)
  }

  // ---- Steps, of which any may come between those of a submission ----

  /** A submission takes a buffer over, replaces it by a copy (or fails to), starts its transfer, or
      gives it up; transfers end whenever they like. */
  datatype Event<+T> =
    | Take(tok: T, frame: seq<u8>)
    | Copy(copy: Option<T>)
    | Start(urb: nat, radio: Radio, ctl: Control)
    | GiveUp
    | Complete(urb: nat, running: bool, ok: bool)

  predicate Enabled<T>(l: Ledger<T>, e: Event<T>) {
    match e
    case Take(t, frame) => l.held.None? && t !in l.made && |frame| >= 5
    case Copy(copy) => l.held.Some? && l.held.value in l.made && (copy.Some? ==> copy.value !in l.made)
    case Start(urb, radio, ctl) =>
      && l.held.Some? && l.held.value in l.made && urb !in l.flights
      && WellFormed(l.made[l.held.value], ctl) && !Refused(Params(radio, ctl, l.made[l.held.value]))
    case GiveUp => l.held.Some?
    case Complete(urb, _, _) => urb in l.flights
  }

  function Step<T>(l: Ledger<T>, e: Event<T>): Ledger<T>
    requires Enabled(l, e)
  {
    match e
    case Take(t, frame) => Accept(l, t, frame)
    case Copy(copy) => Replace(l, true, copy)
    case Start(urb, radio, ctl) => Started(l, urb, radio, ctl)
    case GiveUp => FreeHeld(l)
    case Complete(urb, running, ok) => Land(l, urb, Outcome(l.flights[urb], running, ok))
  }

  /** The transfer carries what is sent for the frame that the buffer stands for. */
  function Started<T>(l: Ledger<T>, urb: nat, radio: Radio, ctl: Control): Ledger<T>
    requires Enabled(l, Start(urb, radio, ctl))
  {
    var frame := l.made[l.held.value];
    Launch(l, Some(urb), true, Sent(radio, ctl, frame), Meta(|frame| % 0x1_0000, ctl.hdrLen), ctl.noAck)
  }

  // ---- Conservation ----

  lemma AcceptConserves<T>(l: Ledger<T>, t: T, frame: seq<u8>)
    requires l.Conserved() && l.held.None? && t !in l.made
    ensures Accept(l, t, frame).Conserved()
  {
    var a := Accept(l, t, frame);
    assert a.InFlight() == l.InFlight() && a.Gone() == l.Gone();
  }

  lemma ToksGrow<T>(r: seq<Release<T>>, x: Release<T>)
    requires Once(r) && x.tok !in Toks(r)
    ensures Toks(r + [x]) == Toks(r) + {x.tok} && Once(r + [x])
  {
    var s := r + [x];
    assert s[|r|] == x && forall i :: 0 <= i < |r| ==> s[i] == r[i] && r[i].tok in Toks(r);
  }

  lemma FlyingGrows<T>(f: map<nat, Flight<T>>, u: nat, x: Flight<T>)
    requires OneToOne(f) && u !in f && x.tok !in Flying(f)
    ensures Flying(f[u := x]) == Flying(f) + {x.tok} && OneToOne(f[u := x])
  {
    var g := f[u := x];
    assert g[u] == x && forall v :: v in f ==> v in g && g[v] == f[v] && f[v].tok in Flying(f);
  }

  lemma FlyingShrinks<T>(f: map<nat, Flight<T>>, u: nat)
    requires OneToOne(f) && u in f
    ensures Flying(f - {u}) == Flying(f) - {f[u].tok} && OneToOne(f - {u})
  {
    var g := f - {u};
    assert forall v :: v in f && v != u ==> v in g && g[v] == f[v];
  }

  lemma FreeConserves<T>(l: Ledger<T>)
    requires l.Conserved() && l.held.Some?
    ensures FreeHeld(l).Conserved()
  {
    ToksGrow(l.released, Release(l.held.value, Freed));
  }

  lemma ReplaceConserves<T>(l: Ledger<T>, needed: bool, copy: Option<T>)
    requires l.Conserved() && (copy.Some? ==> copy.value !in l.made)
    ensures Replace(l, needed, copy).Conserved()
  {
    if l.held.Some? && needed {
      FreeConserves(l);
      if copy.Some? {
        AcceptConserves(FreeHeld(l), copy.value, l.made[l.held.value]);
      }
    }
  }

  lemma LaunchConserves<T>(l: Ledger<T>, urb: Option<nat>, submitted: bool, data: seq<u8>, meta: u32, noAck: bool)
    requires l.Conserved() && (urb.Some? ==> urb.value !in l.flights)
    ensures Launch(l, urb, submitted, data, meta, noAck).Conserved()
  {
    if l.held.Some? {
      if urb.None? || !submitted {
        FreeConserves(l);
      } else {
        FlyingGrows(l.flights, urb.value, Flight(l.held.value, data, meta, noAck));
      }
    }
  }

  lemma LandConserves<T>(l: Ledger<T>, urb: nat, fate: Fate)
    requires l.Conserved() && urb in l.flights
    ensures Land(l, urb, fate).Conserved()
  {
    FlyingShrinks(l.flights, urb);
    ToksGrow(l.released, Release(l.flights[urb].tok, fate));
  }

  /** No step loses a buffer or releases one twice. */
  lemma StepConserves<T>(l: Ledger<T>, e: Event<T>)
    requires l.Conserved() && Enabled(l, e)
    ensures Step(l, e).Conserved()
  {
    match e {
      case Take(t, frame) => AcceptConserves(l, t, frame);
      case Copy(copy) => ReplaceConserves(l, true, copy);
      case Start(urb, radio, ctl) =>
        var frame := l.made[l.held.value];
        LaunchConserves(l, Some(urb), true, Sent(radio, ctl, frame), Meta(|frame| % 0x1_0000, ctl.hdrLen), ctl.noAck);
      case GiveUp => FreeConserves(l);
      case Complete(urb, running, ok) => LandConserves(l, urb, Outcome(l.flights[urb], running, ok));
    }
  }

  // ---- Fidelity ----

  /** A transfer that carries the encapsulation of the frame its buffer stands for. */
  ghost predicate Carries(frame: seq<u8>, data: seq<u8>, meta: u32) {
    exists hdrLen: u8, txwi: seq<u8>, isMgmt: bool ::
      && hdrLen <= |frame| && |txwi| == TXWI_SIZE && |frame| > 0
      && data == Encap(frame, hdrLen, txwi, isMgmt) && meta == Meta(|frame| % 0x1_0000, hdrLen)
  }

  /** What may be said of a released buffer: a report shows the original frame, exactly when its
      length survived sixteen bits, and beacons are never reported. */
  predicate Told(frame: seq<u8>, fate: Fate) {
    fate.Reported? ==> (fate.bytes == frame <==> |frame| < 0x1_0000) && !IsBeacon(fate.bytes)
  }

  ghost predicate Faithful<T>(l: Ledger<T>) {
    && (l.held.Some? ==> l.held.value in l.made)
    && (forall u :: u in l.flights ==>
          l.flights[u].tok in l.made && Carries(l.made[l.flights[u].tok], l.flights[u].data, l.flights[u].meta))
    && (forall i :: 0 <= i < |l.released| ==>
          l.released[i].tok in l.made && Told(l.made[l.released[i].tok], l.released[i].fate))
  }

  /** What becomes of a buffer of a given frame, in the frame's own bytes: while the radio is up and
      unless the frame is a beacon, the stack gets it back as it was, acknowledged if the transfer
      succeeded and an acknowledgement was wanted; otherwise the buffer is freed. */
  predicate EndsAs(frame: seq<u8>, running: bool, ok: bool, noAck: bool, fate: Fate) {
    fate == if running && !(|frame| >= 2 && frame[0] / 4 == 0x20) then Reported(frame, ok && !noAck) else Freed
  }

  /** The only frames that this does not hold of are those whose length does not fit sixteen bits,
      which the descriptor cannot say. */
  lemma OutcomeTold<T>(frame: seq<u8>, f: Flight<T>, running: bool, ok: bool)
    requires Carries(frame, f.data, f.meta)
    ensures Told(frame, Outcome(f, running, ok))
    ensures |frame| < 0x1_0000 ==> EndsAs(frame, running, ok, f.noAck, Outcome(f, running, ok))
    ensures !running ==> Outcome(f, running, ok) == Freed
  {
    var hdrLen: u8, txwi: seq<u8>, isMgmt: bool :|
      && hdrLen <= |frame| && |txwi| == TXWI_SIZE && |frame| > 0
      && f.data == Encap(frame, hdrLen, txwi, isMgmt) && f.meta == Meta(|frame| % 0x1_0000, hdrLen);
    DecapEncap(frame, hdrLen, txwi, isMgmt);
  }

  /** The end of a transfer releases its buffer, and says what became of it. */
  ghost predicate Lands<T>(before: Ledger<T>, urb: nat, running: bool, ok: bool, after: Ledger<T>)
    requires urb in before.flights && before.flights[urb].tok in before.made
  {
    var f := before.flights[urb];
    && |after.released| == |before.released| + 1 && before.released <= after.released
    && after.released[|before.released|].tok == f.tok
    && (!running ==> after.released[|before.released|].fate == Freed)
    && (|before.made[f.tok]| < 0x1_0000 ==>
          EndsAs(before.made[f.tok], running, ok, f.noAck, after.released[|before.released|].fate))
    && after.flights == before.flights - {urb} && after.made == before.made && after.held == before.held
  }

  lemma LandingTold<T>(l: Ledger<T>, urb: nat, running: bool, ok: bool)
    requires Faithful(l) && urb in l.flights
    ensures Lands(l, urb, running, ok, Land(l, urb, Outcome(l.flights[urb], running, ok)))
  {
    OutcomeTold(l.made[l.flights[urb].tok], l.flights[urb], running, ok);
  }

  lemma ReplaceFaithful<T>(l: Ledger<T>, needed: bool, copy: Option<T>, frame: seq<u8>)
    requires Faithful(l) && (copy.Some? ==> copy.value !in l.made)
    requires l.held.Some? ==> l.made[l.held.value] == frame
    ensures var m := Replace(l, needed, copy);
      Faithful(m) && m.flights == l.flights && (m.held.Some? ==> m.made[m.held.value] == frame)
  {
  }

  lemma LaunchFaithful<T>(l: Ledger<T>, urb: Option<nat>, submitted: bool, data: seq<u8>, meta: u32, noAck: bool)
    requires Faithful(l) && (l.held.Some? ==> Carries(l.made[l.held.value], data, meta))
    ensures Faithful(Launch(l, urb, submitted, data, meta, noAck))
  {
  }

  lemma StepFaithful<T>(l: Ledger<T>, e: Event<T>)
    requires Faithful(l) && Enabled(l, e)
    ensures Faithful(Step(l, e))
  {
    match e {
      case Take(t, frame) =>
      case Copy(copy) => ReplaceFaithful(l, true, copy, l.made[l.held.value]);
      case Start(urb, radio, ctl) => StartFaithful(l, urb, radio, ctl);
      case GiveUp =>
      case Complete(urb, running, ok) => OutcomeTold(l.made[l.flights[urb].tok], l.flights[urb], running, ok);
    }
  }

  lemma StartFaithful<T>(l: Ledger<T>, urb: nat, radio: Radio, ctl: Control)
    requires Faithful(l) && Enabled(l, Start(urb, radio, ctl))
    ensures Faithful(Started(l, urb, radio, ctl))
  {
    var frame := l.made[l.held.value];
    SentCarries(radio, ctl, frame);
    LaunchFaithful(l, Some(urb), true, Sent(radio, ctl, frame), Meta(|frame| % 0x1_0000, ctl.hdrLen), ctl.noAck);
  }

  lemma SentCarries(radio: Radio, ctl: Control, frame: seq<u8>)
    requires WellFormed(frame, ctl) && !Refused(Params(radio, ctl, frame))
    ensures Carries(frame, Sent(radio, ctl, frame), Meta(|frame| % 0x1_0000, ctl.hdrLen))
  {
    var p := Params(radio, ctl, frame);
    assert Sent(radio, ctl, frame) == Encap(frame, ctl.hdrLen, SentTxd(p), p.frmType == MGMT);
  }

  /** No reallocation that is needed fails. */
  predicate HasCopies<T>(q: Request<T>) {
    && (NeedsPad(q.ctl.hdrLen, q.tailroom) ==> q.padCopy.Some?)
    && (q.headroom < TXWI_SIZE ==> q.headCopy.Some?)
    && (NeedsTail(|q.frame|, q.ctl.hdrLen, q.tailroom) ==> q.tailCopy.Some?)
  }

  /** Exactly when a submission puts a transfer into flight. */
  predicate Succeeds<T>(q: Request<T>)
    requires WellFormed(q.frame, q.ctl)
  {
    !Declined(q) && HasCopies(q) && q.urb.Some? && q.submitted
  }

  /** In numbers: the radio is up, the length fits, the header's is even, and memory can be had for
      every copy that is needed and for the transfer, which the bus takes. */
  lemma SucceedsExactly<T>(q: Request<T>)
    requires WellFormed(q.frame, q.ctl)
    ensures var pad := (4 - q.ctl.hdrLen % 4) % 4; var n := 32 + |q.frame| + pad;
      (Succeeds(q) <==>
        && q.radio.running && |q.frame| % 0x1_0000 + 32 < 0x1_0000 && q.ctl.hdrLen % 2 == 0
        && (q.tailroom < pad ==> q.padCopy.Some?) && (q.headroom < 32 ==> q.headCopy.Some?)
        && ((if q.tailroom < pad then 0 else q.tailroom - pad) < (4 - n % 4) % 4 + 4 ==> q.tailCopy.Some?)
        && q.urb.Some? && q.submitted)
  {
    PadIs(q.ctl.hdrLen);
    PadIs(Total(|q.frame|, q.ctl.hdrLen));
  }

  lemma PreparedHeld<T>(l: Ledger<T>, q: Request<T>)
    requires l.held.Some? && l.held.value in l.made
    ensures Prepared(l, q).held.Some? == HasCopies(q)
    ensures Prepared(l, q).flights == l.flights
  {
  }

  /** A submission adds at most one transfer, and adds one exactly when every call it makes
      succeeds. */
  lemma Submits<T>(l: Ledger<T>, q: Request<T>)
    requires l.held.None? && WellFormed(q.frame, q.ctl) && Fresh(l, q)
    ensures var m := Transmitted(l, q);
      if Succeeds(q) then
        && m.flights.Keys == l.flights.Keys + {q.urb.value}
        && var f := m.flights[q.urb.value];
           f.data == Sent(q.radio, q.ctl, q.frame) && f.meta == Meta(|q.frame| % 0x1_0000, q.ctl.hdrLen) && f.noAck == q.ctl.noAck
      else m.flights == l.flights
  {
    var a := Accept(l, q.tok, q.frame);
    if !Declined(q) {
      PreparedHeld(a, q);
    }
  }

  /** Once a transfer ends, whatever happened since it was submitted, the stack is told about the
      very frame that it handed over, or the buffer is freed. */
  lemma Delivered<T>(l: Ledger<T>, q: Request<T>, running: bool, ok: bool)
    requires l.held.None? && WellFormed(q.frame, q.ctl) && Fresh(l, q) && Succeeds(q) && |q.frame| < 0x1_0000
    ensures var m := Transmitted(l, q);
      q.urb.value in m.flights && EndsAs(q.frame, running, ok, q.ctl.noAck, Outcome(m.flights[q.urb.value], running, ok))
  {
    Submits(l, q);
    SentCarries(q.radio, q.ctl, q.frame);
    OutcomeTold(q.frame, Transmitted(l, q).flights[q.urb.value], running, ok);
  }

  // ---- Runs ----

  ghost predicate Possible<T>(l: Ledger<T>, es: seq<Event<T>>)
    decreases |es|
  {
    es == [] || (Enabled(l, es[0]) && Possible(Step(l, es[0]), es[1..]))
  }

  function Run<T>(l: Ledger<T>, es: seq<Event<T>>): Ledger<T>
    requires Possible(l, es)
    decreases |es|
  {
    if es == [] then l else Run(Step(l, es[0]), es[1..])
  }

  lemma {:induction false} RunKeeps<T>(l: Ledger<T>, es: seq<Event<T>>)
    requires l.Conserved() && Faithful(l) && Possible(l, es)
    ensures Run(l, es).Conserved() && Faithful(Run(l, es))
    decreases |es|
  {
    if es != [] {
      StepConserves(l, es[0]);
      StepFaithful(l, es[0]);
      RunKeeps(Step(l, es[0]), es[1..]);
    }
  }

  /** The conservation law, over every run from the start, with completions falling anywhere between
      the steps of submissions: each buffer that the driver was given or made was released exactly
      once, or is in flight under exactly one transfer, or is the one being worked on, and only one
      of these; and the status reports show the frames as they were handed over. */
  lemma SkbConservation<T>(es: seq<Event<T>>)
    requires Possible(Empty<T>(), es)
    ensures var l := Run(Empty<T>(), es);
      && l.Conserved()
      && |l.made| == |l.released| + |l.flights| + |l.Held()|
      && (forall i :: 0 <= i < |l.released| ==>
            l.released[i].tok in l.made && Told(l.made[l.released[i].tok], l.released[i].fate))
  {
    RunKeeps(Empty<T>(), es);
    Counted(Run(Empty<T>(), es));
  }

  /** Whenever a transfer ends in a run, its buffer's frame decides what becomes of it. */
  lemma EndingsTold<T>(es: seq<Event<T>>, l: Ledger<T>, urb: nat, running: bool, ok: bool)
    requires Possible(Empty<T>(), es) && l == Run(Empty<T>(), es) && urb in l.flights
    ensures l.flights[urb].tok in l.made && Enabled(l, Complete(urb, running, ok))
    ensures Lands(l, urb, running, ok, Step(l, Complete(urb, running, ok)))
  {
    RunKeeps(Empty<T>(), es);
    CompletionLands(l, urb, running, ok);
  }

  lemma CompletionLands<T>(l: Ledger<T>, urb: nat, running: bool, ok: bool)
    requires Faithful(l) && urb in l.flights
    ensures Lands(l, urb, running, ok, Step(l, Complete(urb, running, ok)))
  {
    var m := Land(l, urb, Outcome(l.flights[urb], running, ok));
    CompletionIs(l, urb, running, ok);
    LandingTold(l, urb, running, ok);
    assert Lands(l, urb, running, ok, m);
  }

  lemma CompletionIs<T>(l: Ledger<T>, urb: nat, running: bool, ok: bool)
    requires urb in l.flights
    ensures Step(l, Complete(urb, running, ok)) == Land(l, urb, Outcome(l.flights[urb], running, ok))
  {
  }

  // ---- A submission is such a run ----

  function CopyThen<T>(needed: bool, copy: Option<T>, rest: seq<Event<T>>): seq<Event<T>> {
    if !needed then rest else if copy.None? then [Copy(copy)] else [Copy(copy)] + rest
  }

  function LastSteps<T>(q: Request<T>): seq<Event<T>> {
    if q.urb.Some? && q.submitted then [Start(q.urb.value, q.radio, q.ctl)] else [GiveUp]
  }

  /** The steps of a submission, in the driver's order, for the answers given. */
  function StepsOf<T>(q: Request<T>): seq<Event<T>>
    requires WellFormed(q.frame, q.ctl)
  {
    [Take(q.tok, q.frame)] +
    if Declined(q) then [GiveUp]
    else CopyThen(NeedsPad(q.ctl.hdrLen, q.tailroom), q.padCopy,
           CopyThen(q.headroom < TXWI_SIZE, q.headCopy,
             CopyThen(NeedsTail(|q.frame|, q.ctl.hdrLen, q.tailroom), q.tailCopy, LastSteps(q))))
  }

  lemma OneStep<T>(l: Ledger<T>, e: Event<T>, rest: seq<Event<T>>)
    requires Enabled(l, e) && Possible(Step(l, e), rest)
    ensures Possible(l, [e] + rest) && Run(l, [e] + rest) == Run(Step(l, e), rest)
  {
    assert ([e] + rest)[1..] == rest;
  }

  lemma CopyRun<T>(l: Ledger<T>, needed: bool, copy: Option<T>, rest: seq<Event<T>>)
    requires l.held.Some? && l.held.value in l.made && (copy.Some? ==> copy.value !in l.made)
    requires var m := Replace(l, needed, copy); m.held.Some? ==> Possible(m, rest)
    ensures Possible(l, CopyThen(needed, copy, rest))
    ensures var m := Replace(l, needed, copy);
      Run(l, CopyThen(needed, copy, rest)) == if m.held.Some? then Run(m, rest) else m
  {
    if needed {
      var after := if copy.None? then [] else rest;
      assert [Copy(copy)] + [] == [Copy(copy)];
      OneStep(l, Copy(copy), after);
    }
  }

  lemma LastRun<T>(l: Ledger<T>, q: Request<T>)
    requires l.held.Some? && l.held.value in l.made && l.made[l.held.value] == q.frame
    requires WellFormed(q.frame, q.ctl) && !Refused(Params(q.radio, q.ctl, q.frame)) && (q.urb.Some? ==> q.urb.value !in l.flights)
    ensures Possible(l, LastSteps(q))
    ensures Run(l, LastSteps(q)) == Launch(l, q.urb, q.submitted, Sent(q.radio, q.ctl, q.frame),
                                           Meta(|q.frame| % 0x1_0000, q.ctl.hdrLen), q.ctl.noAck)
  {
    var e := LastSteps(q)[0];
    assert [e] + [] == LastSteps(q);
    OneStep(l, e, []);
  }

  /** The last copy, and what follows it. */
  lemma TailRun<T>(l: Ledger<T>, q: Request<T>, needed: bool, copy: Option<T>)
    requires l.held.Some? && l.held.value in l.made && l.made[l.held.value] == q.frame && (copy.Some? ==> copy.value !in l.made)
    requires WellFormed(q.frame, q.ctl) && !Refused(Params(q.radio, q.ctl, q.frame)) && (q.urb.Some? ==> q.urb.value !in l.flights)
    ensures var es := CopyThen(needed, copy, LastSteps(q));
      && Possible(l, es)
      && Run(l, es) == Launch(Replace(l, needed, copy), q.urb, q.submitted, Sent(q.radio, q.ctl, q.frame),
                              Meta(|q.frame| % 0x1_0000, q.ctl.hdrLen), q.ctl.noAck)
  {
    var m := Replace(l, needed, copy);
    if m.held.Some? {
      LastRun(m, q);
    }
    CopyRun(l, needed, copy, LastSteps(q));
  }

  /** The last two copies, and what follows them. */
  lemma HeadRun<T>(l: Ledger<T>, q: Request<T>, head: bool, tail: bool)
    requires l.held.Some? && l.held.value in l.made && l.made[l.held.value] == q.frame
    requires q.headCopy.Some? ==> q.headCopy.value !in l.made
    requires q.tailCopy.Some? ==> q.tailCopy.value !in l.made && q.tailCopy != q.headCopy
    requires WellFormed(q.frame, q.ctl) && !Refused(Params(q.radio, q.ctl, q.frame)) && (q.urb.Some? ==> q.urb.value !in l.flights)
    ensures var es := CopyThen(head, q.headCopy, CopyThen(tail, q.tailCopy, LastSteps(q)));
      && Possible(l, es)
      && Run(l, es) == Launch(Replace(Replace(l, head, q.headCopy), tail, q.tailCopy), q.urb, q.submitted,
                              Sent(q.radio, q.ctl, q.frame), Meta(|q.frame| % 0x1_0000, q.ctl.hdrLen), q.ctl.noAck)
  {
    var m := Replace(l, head, q.headCopy);
    if m.held.Some? {
      TailRun(m, q, tail, q.tailCopy);
    }
    CopyRun(l, head, q.headCopy, CopyThen(tail, q.tailCopy, LastSteps(q)));
  }

  lemma PadRun<T>(l: Ledger<T>, q: Request<T>, pad: bool, head: bool, tail: bool)
    requires l.held == Some(q.tok) && q.tok in l.made && l.made[q.tok] == q.frame && Fresh(l.(made := l.made - {q.tok}), q)
    requires WellFormed(q.frame, q.ctl) && !Refused(Params(q.radio, q.ctl, q.frame))
    ensures var es := CopyThen(pad, q.padCopy, CopyThen(head, q.headCopy, CopyThen(tail, q.tailCopy, LastSteps(q))));
      && Possible(l, es)
      && Run(l, es) == Launch(Replace(Replace(Replace(l, pad, q.padCopy), head, q.headCopy), tail, q.tailCopy), q.urb, q.submitted,
                              Sent(q.radio, q.ctl, q.frame), Meta(|q.frame| % 0x1_0000, q.ctl.hdrLen), q.ctl.noAck)
  {
    var m := Replace(l, pad, q.padCopy);
    if m.held.Some? {
      HeadRun(m, q, head, tail);
    }
    CopyRun(l, pad, q.padCopy, CopyThen(head, q.headCopy, CopyThen(tail, q.tailCopy, LastSteps(q))));
  }

  /** A declined frame. */
  lemma DeclinedInSteps<T>(l: Ledger<T>, q: Request<T>)
    requires l.held == Some(q.tok)
    ensures Possible(l, [GiveUp]) && Run(l, [GiveUp]) == FreeHeld(l)
  {
    var none: seq<Event<T>> := [];
    assert [GiveUp] + none == [GiveUp];
    OneStep(l, GiveUp, none);
  }

  /** What one call of the transmit entry point does to the books is the run of its steps. */
  lemma TransmittedInSteps<T>(l: Ledger<T>, q: Request<T>)
    requires l.held.None? && WellFormed(q.frame, q.ctl) && Fresh(l, q)
    ensures Possible(l, StepsOf(q)) && Run(l, StepsOf(q)) == Transmitted(l, q)
  {
    var a := Accept(l, q.tok, q.frame);
    if Declined(q) {
      DeclinedInSteps(a, q);
      OneStep(l, Take(q.tok, q.frame), [GiveUp]);
    } else {
      var pad, head, tail := NeedsPad(q.ctl.hdrLen, q.tailroom), q.headroom < TXWI_SIZE, NeedsTail(|q.frame|, q.ctl.hdrLen, q.tailroom);
      assert a.made - {q.tok} == l.made;
      PadRun(a, q, pad, head, tail);
      OneStep(l, Take(q.tok, q.frame),
              CopyThen(pad, q.padCopy, CopyThen(head, q.headCopy, CopyThen(tail, q.tailCopy, LastSteps(q)))));
    }
  }

  /** So a call keeps both invariants. */
  lemma TransmittedKeeps<T>(l: Ledger<T>, q: Request<T>)
    requires l.held.None? && WellFormed(q.frame, q.ctl) && Fresh(l, q) && l.Conserved() && Faithful(l)
    ensures Transmitted(l, q).Conserved() && Faithful(Transmitted(l, q))
  {
    TransmittedInSteps(l, q);
    RunKeeps(l, StepsOf(q));
  }

  // ---- After the start of a transfer ----

  /** The transfer ends during the run. */
  predicate Ends<T>(es: seq<Event<T>>, urb: nat) {
    exists i :: 0 <= i < |es| && es[i].Complete? && es[i].urb == urb
  }

  lemma {:induction false} GoneForever<T>(l: Ledger<T>, es: seq<Event<T>>, t: T)
    requires Possible(l, es) && t in l.Gone()
    ensures t in Run(l, es).Gone()
    decreases |es|
  {
    if es != [] {
      StepKeepsGone(l, es[0], t);
      GoneForever(Step(l, es[0]), es[1..], t);
    }
  }

  lemma StepKeepsGone<T>(l: Ledger<T>, e: Event<T>, t: T)
    requires Enabled(l, e) && t in l.Gone()
    ensures t in Step(l, e).Gone()
  {
    var m := Step(l, e);
    var i :| 0 <= i < |l.released| && l.released[i].tok == t;
    assert l.released <= m.released && m.released[i] == l.released[i];
  }

  /** Once its transfer has started, a buffer may be touched exactly until the transfer ends; what
      else happens does not matter. */
  lemma {:induction false} AliveUntilEnd<T>(l: Ledger<T>, es: seq<Event<T>>, urb: nat)
    requires l.Conserved() && urb in l.flights && Possible(l, es)
    ensures l.flights[urb].tok in Run(l, es).InFlight() <==> !Ends(es, urb)
    decreases |es|
  {
    var t := l.flights[urb].tok;
    if es == [] {
      assert t in l.InFlight();
    } else {
      var m := Step(l, es[0]);
      StepConserves(l, es[0]);
      if es[0].Complete? && es[0].urb == urb {
        assert m.released[|l.released|].tok == t;
        GoneForever(m, es[1..], t);
        RunConserves(m, es[1..]);
      } else {
        assert urb in m.flights && m.flights[urb] == l.flights[urb];
        AliveUntilEnd(m, es[1..], urb);
        EndsLater(es, urb);
      }
    }
  }

  lemma EndsLater<T>(es: seq<Event<T>>, urb: nat)
    requires es != [] && !(es[0].Complete? && es[0].urb == urb)
    ensures Ends(es, urb) <==> Ends(es[1..], urb)
  {
    if Ends(es, urb) {
      var i :| 0 <= i < |es| && es[i].Complete? && es[i].urb == urb;
      assert es[1..][i - 1] == es[i];
    }
  }

  lemma {:induction false} RunConserves<T>(l: Ledger<T>, es: seq<Event<T>>)
    requires l.Conserved() && Possible(l, es)
    ensures Run(l, es).Conserved()
    decreases |es|
  {
    if es != [] {
      StepConserves(l, es[0]);
      RunConserves(Step(l, es[0]), es[1..]);
    }
  }

  /** The log lines behind a successful submission read the buffer's length: the kernel may by then
      have completed the transfer, and then the buffer is gone. */
  lemma LengthReadTooLate<T>(l: Ledger<T>, urb: nat, radio: Radio, ctl: Control, running: bool, ok: bool)
    requires l.Conserved() && Enabled(l, Start(urb, radio, ctl))
    ensures var es := [Start(urb, radio, ctl), Complete(urb, running, ok)];
      Possible(l, es) && l.held.value in Run(l, es).Gone()
  {
    var m := Started(l, urb, radio, ctl);
    var es := [Start(urb, radio, ctl), Complete(urb, running, ok)];
    assert es[1..] == [Complete(urb, running, ok)];
    var n := Step(m, Complete(urb, running, ok));
    assert n.released[|m.released|].tok == l.held.value;
    assert Run(m, es[1..]) == Run(n, []) == n;
  }

  // ---- Counting ----

  lemma {:induction false} ToksCount<T>(r: seq<Release<T>>)
    requires Once(r)
    ensures |Toks(r)| == |r|
  {
    if r != [] {
      var n := |r| - 1;
      ToksCount(r[..n]);
      assert r == r[..n] + [r[n]];
      assert r[n].tok !in Toks(r[..n]);
      ToksGrow(r[..n], r[n]);
    }
  }

  lemma {:induction false} FlyingCount<T>(f: map<nat, Flight<T>>)
    requires OneToOne(f)
    ensures |Flying(f)| == |f|
    decreases |f|
  {
    if f != map[] {
      var u :| u in f;
      FlyingShrinks(f, u);
      FlyingCount(f - {u});
      assert f[u].tok in Flying(f);
      assert f == (f - {u})[u := f[u]];
    }
  }

  /** As numbers: made = released + in flight + held. */
  lemma Counted<T>(l: Ledger<T>)
    requires l.Conserved()
    ensures |l.made| == |l.released| + |l.flights| + |l.Held()|
  {
    ToksCount(l.released);
    FlyingCount(l.flights);
    assert |l.made| == |l.made.Keys|;
  }
}
