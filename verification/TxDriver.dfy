/** `mt7603_mac80211_tx` and `mt7603_tx_complete` (src/c/mac80211.c), working in place on socket
    buffers. Which allocations and submissions succeed is up to the kernel. */
module TxDriver {
  import opened Machine
  import opened Txd
  import opened TxFrame
  import opened TxSelect
  import opened TxLedger

  /** What the kernel answers during one submission. */
  datatype Luck = Luck(padCopy: bool, headCopy: bool, tailCopy: bool, urb: Option<nat>, submitted: bool)

  /** The descriptor with its final byte count, in front of the padded frame. */
  function Fronted(txwi: seq<u8>, isMgmt: bool, padded: seq<u8>): seq<u8>
    requires |txwi| == TXWI_SIZE
  {
    var n := TXWI_SIZE + |padded|;
    Rewritten(txwi, isMgmt, n + Pad4(n)) + padded
  }

  /** The rounded length as it is stored, narrowed to sixteen bits. */
  function RoundedBytes(len: nat): (b: seq<u8>)
    ensures |b| == 2
  {
    ToLe16((len + Pad4(len)) % 0x1_0000)
  }

  lemma FrontedBy(txwi: seq<u8>, padded: seq<u8>)
    requires |txwi| == TXWI_SIZE
    ensures RoundedBytes(|txwi + padded|) + (txwi + padded)[2..] == Fronted(txwi, false, padded)
  {
    assert (txwi + padded)[2..] == txwi[2..] + padded;
  }

  lemma FrontedIsEncap(frame: seq<u8>, hdrLen: nat, txwi: seq<u8>, isMgmt: bool)
    requires hdrLen <= |frame| && |txwi| == TXWI_SIZE
    ensures Fronted(txwi, isMgmt, Padded(frame, hdrLen, HdrPad(hdrLen))) + Zeros(TailNeeded(|frame|, hdrLen))
         == Encap(frame, hdrLen, txwi, isMgmt)
  {
    assert TXWI_SIZE + |Padded(frame, hdrLen, HdrPad(hdrLen))| == Total(|frame|, hdrLen);
  }

  /** The request is about the buffer as it is. */
  ghost predicate Describes(q: Request<Skb>, skb: Skb)
    requires skb.Valid()
    reads skb, skb.buf
  {
    q.tok == skb && q.frame == skb.Data() && q.headroom == skb.head && q.tailroom == skb.Tailroom()
  }

  /** Whether room is missing for the alignment bytes, for the descriptor and for the tail. */
  datatype Needs = Needs(pad: bool, head: bool, tail: bool)

  function NeedsOf(len: nat, hdrLen: nat, headroom: nat, tailroom: nat): Needs {
    Needs(NeedsPad(hdrLen, tailroom), headroom < TXWI_SIZE, NeedsTail(len, hdrLen, tailroom))
  }

  function RequestNeeds(q: Request<Skb>): Needs {
    NeedsOf(|q.frame|, q.ctl.hdrLen, q.headroom, q.tailroom)
  }

  /** A copy was made exactly when it was needed, none before it had failed, and the kernel could. */
  predicate Answered(n: Needs, luck: Luck, padCopy: Option<Skb>, headCopy: Option<Skb>, tailCopy: Option<Skb>) {
    && padCopy.Some? == (n.pad && luck.padCopy)
    && headCopy.Some? == ((n.pad ==> luck.padCopy) && n.head && luck.headCopy)
    && tailCopy.Some? == ((n.pad ==> luck.padCopy) && (n.head ==> luck.headCopy) && n.tail && luck.tailCopy)
  }

  /** The kernel grants every copy that is needed. */
  predicate Granted(n: Needs, luck: Luck) {
    (n.pad ==> luck.padCopy) && (n.head ==> luck.headCopy) && (n.tail ==> luck.tailCopy)
  }

  /** `q` is `q0` with the copies that were made, all of them new and as the kernel answered. */
  ghost predicate NewCopies(l: Ledger<Skb>, q0: Request<Skb>, q: Request<Skb>, luck: Luck) {
    && q == q0.(padCopy := q.padCopy, headCopy := q.headCopy, tailCopy := q.tailCopy)
    && Answered(RequestNeeds(q), luck, q.padCopy, q.headCopy, q.tailCopy)
    && (q.padCopy.Some? ==> q.padCopy.value !in l.made)
    && (q.headCopy.Some? ==> q.headCopy.value !in l.made && q.headCopy != q.padCopy)
    && (q.tailCopy.Some? ==> q.tailCopy.value !in l.made && q.tailCopy != q.padCopy && q.tailCopy != q.headCopy)
  }

  /** The books are those of `q`, and `cur` holds the transfer if they still hold a buffer. */
  ghost predicate Equipped(l: Ledger<Skb>, q0: Request<Skb>, q: Request<Skb>, m: Ledger<Skb>,
                           cur: Skb, txwi: seq<u8>, isMgmt: bool, luck: Luck, ready: bool)
    requires l.held.Some? ==> l.held.value in l.made
    requires q0.ctl.hdrLen <= |q0.frame| && |txwi| == TXWI_SIZE
    reads cur, cur.buf
  {
    && NewCopies(l, q0, q, luck)
    && m == Prepared(l, q)
    && ready == m.held.Some?
    && (ready ==> m.held == Some(cur) && cur.Valid() && cur.Data() == Encap(q0.frame, q0.ctl.hdrLen, txwi, isMgmt))
  }

  /** Where buffers come from and go to, with the history of both. */
  class Kernel {
    ghost var made: map<Skb, seq<u8>>
    ghost var released: seq<Release<Skb>>
    ghost var held: Option<Skb>

    ghost var flights: map<nat, Flight<Skb>>

    ghost function Books(): Ledger<Skb>
      reads this
    {
      Ledger(made, flights, released, held)
    }

    constructor ()
      ensures Books() == Empty<Skb>()
    {
      made, released, held, flights := map[], [], None, map[];
    }

    ghost method Take(skb: Skb, frame: seq<u8>)
      modifies this`made, this`released, this`held
      ensures Books() == Accept(old(Books()), skb, frame)
    {
      made, held := made[skb := frame], Some(skb);
    }

    ghost method Free()
      requires held.Some?
      modifies this`made, this`released, this`held
      ensures Books() == FreeHeld(old(Books()))
    {
      released, held := released + [Release(held.value, Freed)], None;
    }

    /** New books. */
    ghost method Rewrite(l: Ledger<Skb>)
      modifies this
      ensures Books() == l
    {
      made, released, held, flights := l.made, l.released, l.held, l.flights;
    }

    /** The submission's buffer. */
    ghost predicate Holds(skb: Skb)
      reads this
    {
      held == Some(skb) && skb in made
    }

    /** If room is missing, a copy with more room takes the buffer's place, and the buffer is freed
        (`skb_copy_expand`, `skb_realloc_headroom`). */
    method Reallocate(cur: Skb, needed: bool, headroom: nat, tailroom: nat, possible: bool)
      returns (next: Skb, copy: Option<Skb>)
      requires cur.Valid() && Holds(cur)
      modifies this`made, this`released, this`held
      ensures Books() == Replace(old(Books()), needed, copy)
      ensures copy.Some? == (needed && possible)
      ensures if copy.Some? then copy == Some(next) && fresh(next) && fresh(next.buf) else next == cur
      ensures if needed && !possible then held == None else Holds(next)
      ensures next.Valid() && next.Data() == old(cur.Data()) && next.len == old(cur.len)
      ensures copy.Some? ==> next.head == headroom && next.Tailroom() == tailroom
    {
      next, copy := cur, None;
      if needed {
        ghost var frame := made[cur];
        Free();
        if possible {
          next := new Skb.CopyExpand(cur, headroom, tailroom);
          copy := Some(next);
          Take(next, frame);
        }
      }
    }

    /** Room for the alignment bytes, and the bytes. */
    method Align(cur: Skb, hdrLen: u8, possible: bool) returns (next: Skb, copy: Option<Skb>)
      requires cur.Valid() && Holds(cur) && hdrLen <= cur.len
      modifies this`made, this`released, this`held, cur`len, cur.buf
      ensures Books() == Replace(old(Books()), NeedsPad(hdrLen, old(cur.Tailroom())), copy)
      ensures copy.Some? == (NeedsPad(hdrLen, old(cur.Tailroom())) && possible)
      ensures if copy.Some? then copy == Some(next) && fresh(next) && fresh(next.buf) else next == cur
      ensures if NeedsPad(hdrLen, old(cur.Tailroom())) && !possible then held == None else Holds(next)
      ensures next.Valid()
      ensures held.Some? ==>
                && next.Data() == Padded(old(cur.Data()), hdrLen, HdrPad(hdrLen)) && next.head == old(cur.head)
                && next.Tailroom() == TailAfterPad(hdrLen, old(cur.Tailroom()))
    {
      var pad := HdrPad(hdrLen);
      next, copy := Reallocate(cur, cur.Tailroom() < pad, cur.head, pad, possible);
      if copy.Some? || next.Tailroom() >= pad {
        next.InsertPad(hdrLen, pad);
      }
    }

    /** Room for the descriptor, and the descriptor. */
    method Prepend(cur: Skb, txd: seq<u8>, possible: bool) returns (next: Skb, copy: Option<Skb>)
      requires cur.Valid() && Holds(cur) && |txd| == TXWI_SIZE
      modifies this`made, this`released, this`held, cur`head, cur`len, cur.buf
      ensures Books() == Replace(old(Books()), old(cur.head) < TXWI_SIZE, copy)
      ensures copy.Some? == (old(cur.head) < TXWI_SIZE && possible)
      ensures if copy.Some? then copy == Some(next) && fresh(next) && fresh(next.buf) else next == cur
      ensures if old(cur.head) < TXWI_SIZE && !possible then held == None else Holds(next)
      ensures next.Valid()
      ensures held.Some? ==> next.Data() == txd + old(cur.Data()) && next.Tailroom() == old(cur.Tailroom())
    {
      next, copy := Reallocate(cur, cur.head < TXWI_SIZE, TXWI_SIZE, cur.Tailroom(), possible);
      if next.head >= TXWI_SIZE {
        next.PushBytes(txd);
      }
    }

    /** Room for the tail, and its zeros. */
    method Append(cur: Skb, tail: nat, possible: bool) returns (next: Skb, copy: Option<Skb>)
      requires cur.Valid() && Holds(cur)
      modifies this`made, this`released, this`held, cur`len, cur.buf
      ensures Books() == Replace(old(Books()), old(cur.Tailroom()) < tail, copy)
      ensures copy.Some? == (old(cur.Tailroom()) < tail && possible)
      ensures if copy.Some? then copy == Some(next) && fresh(next) && fresh(next.buf) else next == cur
      ensures if old(cur.Tailroom()) < tail && !possible then held == None else Holds(next)
      ensures next.Valid()
      ensures held.Some? ==> next.Data() == old(cur.Data()) + Zeros(tail)
    {
      next, copy := Reallocate(cur, cur.Tailroom() < tail, cur.head, tail, possible);
      if next.Tailroom() >= tail {
        next.PutZeros(tail);
      }
    }

    /** The byte count in front of anything but a management frame is rounded up to four. */
    method RoundCount(skb: Skb, isMgmt: bool)
      requires skb.Valid() && skb.len >= TXWI_SIZE
      modifies skb.buf
      ensures skb.Valid()
      ensures skb.Data() == Fronted(old(skb.Data())[..TXWI_SIZE], isMgmt, old(skb.Data())[TXWI_SIZE..])
    {
      ghost var d := skb.Data();
      assert d[..TXWI_SIZE] + d[TXWI_SIZE..] == d;
      if !isMgmt {
        FrontedBy(d[..TXWI_SIZE], d[TXWI_SIZE..]);
        skb.Overwrite(0, RoundedBytes(skb.len));
      }
    }

    /** Descriptor with its final byte count. */
    method Front(cur: Skb, txwi: seq<u8>, isMgmt: bool, possible: bool) returns (next: Skb, copy: Option<Skb>, ready: bool)
      requires cur.Valid() && Holds(cur) && |txwi| == TXWI_SIZE
      modifies this`made, this`released, this`held, cur`head, cur`len, cur.buf
      ensures Books() == Replace(old(Books()), old(cur.head) < TXWI_SIZE, copy)
      ensures copy.Some? == (old(cur.head) < TXWI_SIZE && possible) && ready == (old(cur.head) < TXWI_SIZE ==> possible)
      ensures if copy.Some? then copy == Some(next) && fresh(next) && fresh(next.buf) else next == cur
      ensures ready == held.Some? && next.Valid()
      ensures ready ==>
                && Holds(next) && next.Valid()
                && next.Tailroom() == old(cur.Tailroom())
                && next.Data() == Fronted(txwi, isMgmt, old(cur.Data()))
    {
      ghost var data := cur.Data();
      var short := cur.head < TXWI_SIZE;
      next, copy := Prepend(cur, txwi, possible);
      ready := !short || copy.Some?;
      if ready {
        assert next.Data()[..TXWI_SIZE] == txwi && next.Data()[TXWI_SIZE..] == data;
        RoundCount(next, isMgmt);
      }
    }

    /** Alignment and descriptor. */
    method AlignAndFront(skb: Skb, hdrLen: u8, txwi: seq<u8>, isMgmt: bool, luck: Luck)
      returns (cur: Skb, padCopy: Option<Skb>, headCopy: Option<Skb>, ready: bool)
      requires skb.Valid() && Holds(skb) && hdrLen <= skb.len && |txwi| == TXWI_SIZE
      modifies this`made, this`released, this`held, skb`head, skb`len, skb.buf
      ensures Books() == Replace(Replace(old(Books()), NeedsPad(hdrLen, old(skb.Tailroom())), padCopy),
                                 old(skb.head) < TXWI_SIZE, headCopy)
      ensures Answered(Needs(NeedsPad(hdrLen, old(skb.Tailroom())), old(skb.head) < TXWI_SIZE, false), luck, padCopy, headCopy, None)
      ensures ready == Granted(Needs(NeedsPad(hdrLen, old(skb.Tailroom())), old(skb.head) < TXWI_SIZE, false), luck)
      ensures cur == skb || (fresh(cur) && fresh(cur.buf))
      ensures padCopy.Some? ==> fresh(padCopy.value)
      ensures headCopy.Some? ==> fresh(headCopy.value) && headCopy != padCopy
      ensures ready == held.Some? && cur.Valid()
      ensures ready ==>
                && Holds(cur) && cur.Valid() && cur.Tailroom() == TailAfterPad(hdrLen, old(skb.Tailroom()))
                && cur.Data() == Fronted(txwi, isMgmt, Padded(old(skb.Data()), hdrLen, HdrPad(hdrLen)))
    {
      headCopy, ready := None, false;
      var needed := NeedsPad(hdrLen, skb.Tailroom());
      cur, padCopy := Align(skb, hdrLen, luck.padCopy);
      if !needed || padCopy.Some? {
        cur, headCopy, ready := Front(cur, txwi, isMgmt, luck.headCopy);
      }
    }

    /** The whole encapsulation. */
    method Assemble(skb: Skb, hdrLen: u8, txwi: seq<u8>, isMgmt: bool, luck: Luck)
      returns (cur: Skb, padCopy: Option<Skb>, headCopy: Option<Skb>, tailCopy: Option<Skb>, ready: bool)
      requires skb.Valid() && Holds(skb) && hdrLen <= skb.len && |txwi| == TXWI_SIZE
      modifies this`made, this`released, this`held, skb`head, skb`len, skb.buf
      ensures Books() == Replace(Replace(Replace(old(Books()), NeedsPad(hdrLen, old(skb.Tailroom())), padCopy),
                                         old(skb.head) < TXWI_SIZE, headCopy),
                                 NeedsTail(old(skb.len), hdrLen, old(skb.Tailroom())), tailCopy)
      ensures cur == skb || (fresh(cur) && fresh(cur.buf))
      ensures padCopy.Some? ==> fresh(padCopy.value)
      ensures headCopy.Some? ==> fresh(headCopy.value) && headCopy != padCopy
      ensures tailCopy.Some? ==> fresh(tailCopy.value) && tailCopy != padCopy && tailCopy != headCopy
      ensures Answered(NeedsOf(old(skb.len), hdrLen, old(skb.head), old(skb.Tailroom())), luck, padCopy, headCopy, tailCopy)
      ensures ready == held.Some? && cur.Valid()
      ensures ready ==> Holds(cur) && cur.Data() == Encap(old(skb.Data()), hdrLen, txwi, isMgmt)
    {
      tailCopy := None;
      var tail := TailNeeded(skb.len, hdrLen);
      ghost var frame := skb.Data();
      cur, padCopy, headCopy, ready := AlignAndFront(skb, hdrLen, txwi, isMgmt, luck);
      if ready {
        FrontedIsEncap(frame, hdrLen, txwi, isMgmt);
        var short := cur.Tailroom() < tail;
        cur, tailCopy := Append(cur, tail, luck.tailCopy);
        ready := !short || tailCopy.Some?;
      }
    }

    /** The same, as the handling of a request. */
    method Equip(skb: Skb, txwi: seq<u8>, isMgmt: bool, luck: Luck, ghost q0: Request<Skb>, hdrLen: u8)
      returns (cur: Skb, ghost q: Request<Skb>, ready: bool)
      requires skb.Valid() && Holds(skb) && hdrLen <= skb.len && |txwi| == TXWI_SIZE && Describes(q0, skb) && q0.ctl.hdrLen == hdrLen
      modifies this`made, this`released, this`held, skb`head, skb`len, skb.buf
      ensures Equipped(old(Books()), q0, q, Books(), cur, txwi, isMgmt, luck, ready)
      ensures cur.Valid() && (cur == skb || (fresh(cur) && fresh(cur.buf)))
    {
      var padCopy, headCopy, tailCopy;
      cur, padCopy, headCopy, tailCopy, ready := Assemble(skb, hdrLen, txwi, isMgmt, luck);
      q := q0.(padCopy := padCopy, headCopy := headCopy, tailCopy := tailCopy);
    }
  }

  /** A transfer's record says what its buffer holds. */
  ghost predicate Records(c: Context, f: Flight<Skb>)
    reads c.skb, c.skb.buf
  {
    c.skb.Valid() && f == Flight(c.skb, c.skb.Data(), c.meta, c.noAck)
  }

  /** The records are true, and buffers in flight share no memory; `repr` holds all of it. */
  ghost predicate Intact(repr: set<object>, anchored: map<nat, Context>, flights: map<nat, Flight<Skb>>)
    reads repr
  {
    && flights.Keys == anchored.Keys
    && (forall u :: u in anchored ==> anchored[u].skb in repr && anchored[u].skb.buf in repr)
    && (forall u :: u in anchored ==> Records(anchored[u], flights[u]))
    && (forall u, v :: u in anchored && v in anchored && u != v ==>
          anchored[u].skb != anchored[v].skb && anchored[u].skb.buf != anchored[v].skb.buf)
  }

  /** A buffer that shares nothing with those in flight. */
  ghost predicate Apart(repr: set<object>, skb: Skb)
    reads skb
  {
    skb.Valid() && skb !in repr && skb.buf !in repr
  }

  lemma IntactWithout(repr: set<object>, anchored: map<nat, Context>, flights: map<nat, Flight<Skb>>, urb: nat)
    requires Intact(repr, anchored, flights) && urb in anchored
    ensures var skb := anchored[urb].skb;
      Intact(repr - {skb, skb.buf}, anchored - {urb}, flights - {urb}) && Records(anchored[urb], flights[urb])
  {
  }

  lemma IntactWith(repr: set<object>, anchored: map<nat, Context>, flights: map<nat, Flight<Skb>>, urb: nat, c: Context, f: Flight<Skb>)
    requires Intact(repr, anchored, flights) && urb !in anchored && Apart(repr, c.skb) && Records(c, f)
    ensures Intact(repr + {c.skb, c.skb.buf}, anchored[urb := c], flights[urb := f])
  {
  }

  /** What the driver remembers of a transfer: its buffer and the words stored in it. */
  datatype Context = Context(skb: Skb, meta: u32, noAck: bool)

  /** The descriptor, the padding and the tail go. */
  method Undo(c: Context) returns (d: seq<u8>)
    requires c.skb.Valid()
    modifies c.skb`head, c.skb`len, c.skb.buf
    ensures d == Decap(old(c.skb.Data()), c.meta)
  {
    c.skb.Restore(c.meta);
    d := c.skb.Data();
  }

  /** The descriptor for the parameters, with the status report asked for. */
  method BuildTxd(p: TxParams) returns (r: Result<seq<u8>>)
    requires RateInRange(p.rateMode, p.rateMcs)
    ensures r == if Refused(p) then Err(EINVAL) else Ok(SentTxd(p))
  {
    var txwi := new u8[TXWI_SIZE](_ => 0);
    var built := BuildTxwi(p, txwi);
    if built.Err? {
      return Err(built.errno);
    }
    assert txwi[..] == TxdBytes(p);
    return Ok(Tagged(txwi[..], p.frmType == DATA));
  }

  /** Nothing is sent while the radio is down or when the builder refuses. */
  method Decide(radio: Radio, ctl: Control, frame: seq<u8>) returns (r: Option<seq<u8>>)
    requires WellFormed(frame, ctl)
    ensures var p := Params(radio, ctl, frame);
      r == if radio.running && !Refused(p) then Some(SentTxd(p)) else None
  {
    if !radio.running {
      return None;
    }
    ParamsInRange(radio, ctl, frame);
    var txd := BuildTxd(Params(radio, ctl, frame));
    return if txd.Ok? then Some(txd.value) else None;
  }

  /** The request went as the kernel answered: every copy that was needed and reached is the one it
      gave, and the transfer starts exactly when the frame is not declined and all that is needed
      is granted. */
  ghost predicate Follows(q: Request<Skb>, luck: Luck)
    requires WellFormed(q.frame, q.ctl)
  {
    && (!Declined(q) ==> Answered(RequestNeeds(q), luck, q.padCopy, q.headCopy, q.tailCopy))
    && (Succeeds(q) <==> !Declined(q) && Granted(RequestNeeds(q), luck) && luck.urb.Some? && luck.submitted)
  }

  lemma AnswersDecide(q: Request<Skb>, luck: Luck)
    requires WellFormed(q.frame, q.ctl) && q.urb == luck.urb && q.submitted == luck.submitted
    requires !Declined(q) ==> Answered(RequestNeeds(q), luck, q.padCopy, q.headCopy, q.tailCopy)
    ensures Follows(q, luck)
  {
  }

  /** What handling a request leaves in the books, given the descriptor if there is one. */
  ghost predicate Handled(l: Ledger<Skb>, q0: Request<Skb>, txd: Option<seq<u8>>, luck: Luck, q: Request<Skb>, m: Ledger<Skb>)
    requires WellFormed(q0.frame, q0.ctl) && (txd.Some? ==> |txd.value| == TXWI_SIZE)
  {
    var a := Accept(l, q0.tok, q0.frame);
    && (if txd.Some? then NewCopies(a, q0, q, luck) else q == q0.(padCopy := None, headCopy := None, tailCopy := None))
    && m == if txd.None? then FreeHeld(a)
            else Launch(Prepared(a, q), q.urb, q.submitted,
                        Encap(q.frame, q.ctl.hdrLen, txd.value, FrameType(q0.frame) == MGMT),
                        Meta(|q0.frame| % 0x1_0000, q0.ctl.hdrLen), q.ctl.noAck)
  }

  lemma HandledIsTransmitted(l: Ledger<Skb>, q0: Request<Skb>, txd: Option<seq<u8>>, luck: Luck, q: Request<Skb>, m: Ledger<Skb>)
    requires WellFormed(q0.frame, q0.ctl) && q0.tok !in l.made && (q0.urb.Some? ==> q0.urb.value !in l.flights)
    requires q0.urb == luck.urb && q0.submitted == luck.submitted
    requires txd == if !Declined(q0) then Some(SentTxd(Params(q0.radio, q0.ctl, q0.frame))) else None
    requires Handled(l, q0, txd, luck, q, m)
    ensures q == q0.(padCopy := q.padCopy, headCopy := q.headCopy, tailCopy := q.tailCopy)
    ensures Fresh(l, q) && m == Transmitted(l, q)
    ensures Follows(q, luck)
  {
    AnswersDecide(q, luck);
  }

  class Transmitter {
    const kernel: Kernel
    var anchored: map<nat, Context>
    ghost var repr: set<object>

    ghost predicate Valid()
      reads this`anchored, this`repr, kernel`flights, repr
    {
      this !in repr && kernel !in repr && Intact(repr, anchored, kernel.flights)
    }

    constructor ()
      ensures Valid() && fresh(kernel) && kernel.Books() == Empty<Skb>()
    {
      kernel := new Kernel();
      anchored, repr := map[], {};
    }

    /** Another set of transfers. */
    method Adopt(transfers: map<nat, Context>, ghost memory: set<object>, ghost flights: map<nat, Flight<Skb>>)
      requires this !in memory && Intact(memory, transfers, flights)
      modifies this`anchored, this`repr
      ensures anchored == transfers && repr == memory && Intact(memory, transfers, flights)
    {
      anchored, repr := transfers, memory;
    }

    // ---- Completion ----

    /** One transfer less. */
    method Unlink(urb: nat, ghost fate: Fate, ghost rest: set<object>)
      requires urb in kernel.flights && this !in rest && kernel !in rest
      requires Intact(rest, anchored - {urb}, kernel.flights - {urb})
      modifies this`anchored, this`repr, kernel
      ensures Valid() && anchored == old(anchored) - {urb} && kernel.Books() == Land(old(kernel.Books()), urb, fate)
    {
      ghost var flights := kernel.flights - {urb};
      ghost var released := kernel.released + [Release(kernel.flights[urb].tok, fate)];
      kernel.Rewrite(kernel.Books().(released := released, flights := flights));
      Adopt(anchored - {urb}, rest, flights);
    }

    /** The end of one transfer: the buffer is restored, and is no longer anchored. */
    method TxComplete(urb: nat, running: bool, ok: bool)
      requires Valid() && urb in anchored
      modifies this`anchored, this`repr, kernel
      modifies anchored[urb].skb`head, anchored[urb].skb`len, anchored[urb].skb.buf
      ensures Valid() && anchored == old(anchored) - {urb}
      ensures kernel.Books() == Land(old(kernel.Books()), urb, Outcome(old(kernel.flights[urb]), running, ok))
      ensures old(Faithful(kernel.Books())) ==> Lands(old(kernel.Books()), urb, running, ok, kernel.Books())
    {
      ghost var before := kernel.Books();
      var c := anchored[urb];
      ghost var rest, others, flights := repr - {c.skb, c.skb.buf}, anchored - {urb}, kernel.flights - {urb};
      IntactWithout(repr, anchored, kernel.flights, urb);
      var d := Undo(c);
      assert Intact(rest, others, flights);
      Unlink(urb, FateOf(d, running, ok, c.noAck), rest);
      if Faithful(before) {
        LandingTold(before, urb, running, ok);
      }
    }

    // ---- Submission ----

    /** One transfer more. */
    method Link(urb: nat, c: Context, ghost f: Flight<Skb>, ghost more: set<object>)
      requires kernel.held == Some(f.tok) && this !in more && kernel !in more
      requires Intact(more, anchored[urb := c], kernel.flights[urb := f])
      modifies this`anchored, this`repr, kernel
      ensures Valid() && kernel.Books() == old(kernel.Books()).(held := None, flights := old(kernel.flights)[urb := f])
    {
      ghost var flights := kernel.flights[urb := f];
      kernel.Rewrite(kernel.Books().(held := None, flights := flights));
      Adopt(anchored[urb := c], more, flights);
    }

    /** The transfer starts, or the buffer is freed. */
    method Submit(cur: Skb, meta: u32, noAck: bool, luck: Luck)
      requires Valid() && Apart(repr, cur) && kernel.held == Some(cur)
      requires luck.urb.Some? ==> luck.urb.value !in anchored
      modifies this`anchored, this`repr, kernel
      ensures Valid()
      ensures kernel.Books() == Launch(old(kernel.Books()), luck.urb, luck.submitted, old(cur.Data()), meta, noAck)
    {
      if luck.urb.None? || !luck.submitted {
        kernel.Free();
      } else {
        var c := Context(cur, meta, noAck);
        ghost var f := Flight(cur, cur.Data(), meta, noAck);
        IntactWith(repr, anchored, kernel.flights, luck.urb.value, c, f);
        Link(luck.urb.value, c, f, repr + {cur, cur.buf});
      }
    }

    /** What is done with a request's buffer once its descriptor is known. */
    method Send(skb: Skb, txwi: seq<u8>, isMgmt: bool, luck: Luck, ghost q0: Request<Skb>, ctl: Control, meta: u32)
      returns (ghost q: Request<Skb>)
      requires Valid() && Apart(repr, skb) && kernel.Holds(skb) && ctl.hdrLen <= skb.len && |txwi| == TXWI_SIZE
      requires Describes(q0, skb) && q0.ctl == ctl && q0.urb == luck.urb && q0.submitted == luck.submitted
      requires luck.urb.Some? ==> luck.urb.value !in anchored
      modifies this`anchored, this`repr, kernel, skb`head, skb`len, skb.buf
      ensures Valid() && NewCopies(old(kernel.Books()), q0, q, luck)
      ensures kernel.Books() == Launch(Prepared(old(kernel.Books()), q), q.urb, q.submitted,
                                       Encap(q.frame, ctl.hdrLen, txwi, isMgmt), meta, ctl.noAck)
    {
      var cur, ready;
      ghost var l := kernel.Books();
      cur, q, ready := kernel.Equip(skb, txwi, isMgmt, luck, q0, ctl.hdrLen);
      ghost var m, data := kernel.Books(), Encap(q.frame, ctl.hdrLen, txwi, isMgmt);
      assert m == Prepared(l, q) && NewCopies(l, q0, q, luck) && (ready ==> m.held == Some(cur) && cur.Data() == data);
      SubmitIf(cur, meta, ctl.noAck, luck, ready, data);
    }

    /** The transfer starts if there is a buffer to start it with. */
    method SubmitIf(cur: Skb, meta: u32, noAck: bool, luck: Luck, ready: bool, ghost data: seq<u8>)
      requires Valid() && Apart(repr, cur) && ready == kernel.held.Some? && (ready ==> kernel.held == Some(cur) && cur.Data() == data)
      requires luck.urb.Some? ==> luck.urb.value !in anchored
      modifies this`anchored, this`repr, kernel
      ensures Valid()
      ensures kernel.Books() == Launch(old(kernel.Books()), luck.urb, luck.submitted, data, meta, noAck)
    {
      if ready {
        Submit(cur, meta, noAck, luck);
      }
    }

    /** Taking the buffer over, and sending or freeing it. */
    method Handle(skb: Skb, txd: Option<seq<u8>>, luck: Luck, ghost q0: Request<Skb>, ctl: Control)
      returns (ghost q: Request<Skb>)
      requires Valid() && Apart(repr, skb) && WellFormed(skb.Data(), ctl) && (txd.Some? ==> |txd.value| == TXWI_SIZE)
      requires Describes(q0, skb) && q0.ctl == ctl && q0.urb == luck.urb && q0.submitted == luck.submitted
      requires luck.urb.Some? ==> luck.urb.value !in anchored
      modifies this`anchored, this`repr, kernel, skb`head, skb`len, skb.buf
      ensures Valid()
      ensures Handled(old(kernel.Books()), q0, txd, luck, q, kernel.Books())
    {
      var frame := skb.Data();
      kernel.Take(skb, frame);
      if txd.Some? {
        q := Send(skb, txd.value, FrameType(frame) == MGMT, luck, q0, ctl, Meta(|frame| % 0x1_0000, ctl.hdrLen));
      } else {
        kernel.Free();
        q := q0.(padCopy := None, headCopy := None, tailCopy := None);
      }
    }

    /** `mt7603_mac80211_tx`: the books change as `Transmitted` says, for the frame as it was handed
        over and for exactly the answers that the kernel gave; so the transfer starts exactly when
        the radio runs, the builder agrees, and the kernel grants all that is needed. */
    method Tx(skb: Skb, radio: Radio, ctl: Control, luck: Luck) returns (ghost q: Request<Skb>)
      requires Valid() && Apart(repr, skb) && WellFormed(skb.Data(), ctl)
      requires kernel.held.None? && skb !in kernel.made
      requires luck.urb.Some? ==> luck.urb.value !in anchored
      modifies this`anchored, this`repr, kernel, skb`head, skb`len, skb.buf
      ensures Valid()
      ensures q == Request(skb, old(skb.Data()), old(skb.head), old(skb.Tailroom()), radio, ctl,
                           q.padCopy, q.headCopy, q.tailCopy, luck.urb, luck.submitted)
      ensures Fresh(old(kernel.Books()), q) && kernel.Books() == Transmitted(old(kernel.Books()), q)
      ensures Follows(q, luck)
    {
      var frame := skb.Data();
      ghost var l := kernel.Books();
      assert luck.urb.Some? ==> luck.urb.value !in l.flights;
      ghost var q0 := Request(skb, frame, skb.head, skb.Tailroom(), radio, ctl, None, None, None, luck.urb, luck.submitted);
      var txd := Decide(radio, ctl, frame);
      q := Handle(skb, txd, luck, q0, ctl);
      ghost var m := kernel.Books();
      HandledIsTransmitted(l, q0, txd, luck, q, m);
    }
  }
}
