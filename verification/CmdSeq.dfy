/** Command sequence numbers: the counter of src/c/usb.c and the one of src/c/mac80211.c. */
module CmdSeq {
  import opened Machine

  /** `mt7603_next_cmd_seq` of src/c/usb.c. */
  function NextCmdSeq(x: u8): (n: u8)
    ensures 1 <= n <= 15
  {
    if x >= 15 then 1 else x + 1
  }

  /** The expression that `start` and the channel switch of src/c/mac80211.c use: one more, going
      round from 15 to 1. */
  function NextDevSeq(x: u8): (n: u8)
    ensures 1 <= n <= 15 && n % 15 == (x + 1) % 15
  {
    x % 15 + 1
  }

  /** The two counters agree on every value that either of them ever takes, and otherwise only on
      multiples of fifteen. */
  lemma CountersAgree(x: u8)
    ensures NextCmdSeq(x) == NextDevSeq(x) <==> x <= 15 || x % 15 == 0
  {
  }

  // ---- Runs ----

  /** A number that was assigned, and whether a command with it was sent. */
  datatype Issue = Issue(no: u8, sent: bool)

  /** A call that assigns numbers, with the outcome of every command that it builds and sends: the
      calibration upload, if there are calibration data, radio on, contention parameters, and the
      two commands of a channel switch. A start without memory for its commands sends none. */
  datatype Call =
    | Start(memory: bool, calibrated: bool, calibration: bool, radio: bool, contention: bool, channel: bool, power: bool)
    | Switch(channel: bool, power: bool)

  /** One entry per number assigned: whether it was sent. */
  function Outcomes(c: Call): seq<bool> {
    match c
    case Start(memory, calibrated, calibration, radio, contention, channel, power) =>
      if !memory then [false]
      else (if calibrated then [calibration] else []) + [radio, contention, channel, power]
    case Switch(channel, power) => [channel, power]
  }

  function RunOutcomes(calls: seq<Call>): seq<bool>
    decreases |calls|
  {
    if calls == [] then [] else Outcomes(calls[0]) + RunOutcomes(calls[1..])
  }

  /** The numbers go round, whether or not they are sent. */
  function Numbered(outcomes: seq<bool>): (log: seq<Issue>)
    ensures |log| == |outcomes|
  {
    seq(|outcomes|, i requires 0 <= i < |outcomes| => Issue(i % 15 + 1, outcomes[i]))
  }

  /** What a run of calls assigns and sends. */
  function RunLog(calls: seq<Call>): seq<Issue> {
    Numbered(RunOutcomes(calls))
  }

  /** The last of `n` numbers assigned; 0 before the first. */
  function LastNumber(n: nat): u8 {
    if n == 0 then 0 else (n - 1) % 15 + 1
  }

  lemma NumberedAppend(outcomes: seq<bool>, sent: bool)
    ensures Numbered(outcomes + [sent]) == Numbered(outcomes) + [Issue(NextDevSeq(LastNumber(|outcomes|)), sent)]
    ensures LastNumber(|outcomes + [sent]|) == NextDevSeq(LastNumber(|outcomes|))
  {
    NextNumber(|outcomes|);
  }

  lemma NextNumber(n: nat)
    ensures NextDevSeq(LastNumber(n)) == n % 15 + 1 == LastNumber(n + 1)
  {
  }

  /** The counter's value and its history fit together. */
  ghost predicate Fits(cmdSeq: u8, log: seq<Issue>, outcomes: seq<bool>) {
    log == Numbered(outcomes) && cmdSeq == LastNumber(|outcomes|)
  }

  /** `outcomes` is what came before the calls `left` of a run. */
  ghost predicate Ahead(outcomes: seq<bool>, left: seq<Call>, calls: seq<Call>) {
    outcomes + RunOutcomes(left) == RunOutcomes(calls)
  }

  lemma OneCall(outcomes: seq<bool>, left: seq<Call>, calls: seq<Call>)
    requires left != [] && Ahead(outcomes, left, calls)
    ensures Ahead(outcomes + Outcomes(left[0]), left[1..], calls)
  {
    assert outcomes + Outcomes(left[0]) + RunOutcomes(left[1..]) == outcomes + RunOutcomes(left);
  }

  /** The device's counter, with the history of its use. */
  class Counter {
    var cmdSeq: u8
    ghost var outcomes: seq<bool>
    ghost var log: seq<Issue>

    ghost predicate Valid()
      reads this
    {
      Fits(cmdSeq, log, outcomes)
    }

    constructor ()
      ensures Valid() && outcomes == []
    {
      cmdSeq, outcomes, log := 0, [], [];
    }

    /** Assigning a number, for a command that is sent or not. */
    method Command(sent: bool)
      requires Valid()
      modifies this
      ensures Valid() && outcomes == old(outcomes) + [sent]
    {
      NumberedAppend(outcomes, sent);
      cmdSeq := NextDevSeq(cmdSeq);
      log := log + [Issue(cmdSeq, sent)];
      outcomes := outcomes + [sent];
    }

    /** Channel switch and transmit power (`mt7603_set_channel_ext`). */
    method SetChannel(channel: bool, power: bool)
      requires Valid()
      modifies this
      ensures Valid() && outcomes == old(outcomes) + Outcomes(Switch(channel, power))
    {
      Command(channel);
      Command(power);
    }

    /** `mt7603_mac80211_start`. Its first number is assigned before the memory for the commands. */
    method StartDevice(c: Call) returns (ret: int)
      requires Valid() && c.Start?
      modifies this
      ensures Valid() && outcomes == old(outcomes) + Outcomes(c) && ret == if c.memory then 0 else ENOMEM
    {
      if !c.memory {
        Command(false);
        return ENOMEM;
      }
      if c.calibrated {
        Command(c.calibration);
      }
      RadioOn(c);
      return 0;
    }

    /** Radio on, contention parameters and the first channel. */
    method RadioOn(c: Call)
      requires Valid() && c.Start?
      modifies this
      ensures Valid() && outcomes == old(outcomes) + [c.radio, c.contention, c.channel, c.power]
    {
      Command(c.radio);
      Command(c.contention);
      SetChannel(c.channel, c.power);
    }

    method Handle(c: Call)
      requires Valid()
      modifies this
      ensures Valid() && outcomes == old(outcomes) + Outcomes(c)
    {
      if c.Start? {
        var ret := StartDevice(c);
      } else {
        SetChannel(c.channel, c.power);
      }
    }

    /** A run of calls from the start leaves exactly its log. */
    method Perform(calls: seq<Call>)
      requires Valid() && outcomes == []
      modifies this
      ensures Valid() && log == RunLog(calls)
    {
      assert calls[0..] == calls;
      for i := 0 to |calls|
        invariant Valid() && Ahead(outcomes, calls[i..], calls)
      {
        OneCall(outcomes, calls[i..], calls);
        Handle(calls[i]);
        assert calls[i..][1..] == calls[i + 1..];
      }
      assert calls[|calls|..] == [];
    }
  }

  // ---- What any run says ----

  function SentNumbers(log: seq<Issue>): seq<u8> {
    if log == [] then []
    else (if log[0].sent then [log[0].no] else []) + SentNumbers(log[1..])
  }

  /** Numbers assigned before the k-th command that was sent. */
  function Position(log: seq<Issue>, k: nat): (p: nat)
    requires k < |SentNumbers(log)|
    ensures p < |log| && log[p].sent && SentNumbers(log)[k] == log[p].no
    decreases |log|
  {
    if !log[0].sent then 1 + Position(log[1..], k)
    else if k == 0 then 0 else 1 + Position(log[1..], k - 1)
  }

  /** Numbers lost among the first `n`. */
  function Lost(log: seq<Issue>, n: nat): nat
    requires n <= |log|
    decreases n
  {
    if n == 0 then 0 else (if log[0].sent then 0 else 1) + Lost(log[1..], n - 1)
  }

  /** Before the k-th command that was sent, k were sent and the others were lost. */
  lemma {:induction false} PositionCounts(log: seq<Issue>, k: nat)
    requires k < |SentNumbers(log)|
    ensures Position(log, k) == k + Lost(log, Position(log, k))
    decreases |log|
  {
    if !log[0].sent {
      PositionCounts(log[1..], k);
    } else if k > 0 {
      PositionCounts(log[1..], k - 1);
    }
  }

  /** Numbers lost between two commands that were sent. */
  function LostBetween(log: seq<Issue>, i: nat, j: nat): int
    requires i < |SentNumbers(log)| && j < |SentNumbers(log)|
  {
    Lost(log, Position(log, j)) - Lost(log, Position(log, i))
  }

  /** Numbers assigned at a distance divisible by fifteen are the same, and no others. */
  lemma SameNumber(outcomes: seq<bool>, i: nat, j: nat)
    requires i <= j < |outcomes|
    ensures Numbered(outcomes)[i].no == Numbered(outcomes)[j].no <==> (j - i) % 15 == 0
    ensures 1 <= Numbered(outcomes)[i].no <= 15
  {
    SameResidue(i, j - i);
  }

  lemma SameResidue(i: nat, d: nat)
    ensures (i + d) % 15 == i % 15 <==> d % 15 == 0
  {
    var q, r := d / 15, d % 15;
    assert d == 15 * q + r && (i + d) % 15 == (i + r) % 15;
  }

  /** A start takes five numbers, or four without calibration data, or one without memory; whether a
      number was sent is the outcome of its own command. */
  lemma StartTakes(c: Call, rest: seq<Call>)
    requires c.Start?
    ensures RunOutcomes([c] + rest)
         == (if !c.memory then [false]
             else if c.calibrated then [c.calibration, c.radio, c.contention, c.channel, c.power]
             else [c.radio, c.contention, c.channel, c.power]) + RunOutcomes(rest)
  {
    assert ([c] + rest)[1..] == rest;
    assert [c.calibration] + [c.radio, c.contention, c.channel, c.power] == [c.calibration, c.radio, c.contention, c.channel, c.power];
    assert [] + [c.radio, c.contention, c.channel, c.power] == [c.radio, c.contention, c.channel, c.power];
  }

  /** A change of the channel takes two. */
  lemma SwitchTakes(c: Call, rest: seq<Call>)
    requires c.Switch?
    ensures RunOutcomes([c] + rest) == [c.channel, c.power] + RunOutcomes(rest)
  {
    assert ([c] + rest)[1..] == rest;
  }

  /** Exactly when two commands sent in a run carry the same number: when the sends and the losses
      between them add up to a multiple of fifteen. */
  lemma Collide(calls: seq<Call>, i: nat, j: nat)
    requires i <= j < |SentNumbers(RunLog(calls))|
    ensures var log := RunLog(calls);
      SentNumbers(log)[i] == SentNumbers(log)[j] <==> (j - i + LostBetween(log, i, j)) % 15 == 0
  {
    CollideBy(RunOutcomes(calls), RunLog(calls), i, j);
  }

  lemma CollideBy(outcomes: seq<bool>, log: seq<Issue>, i: nat, j: nat)
    requires log == Numbered(outcomes) && i <= j < |SentNumbers(log)|
    ensures SentNumbers(log)[i] == SentNumbers(log)[j] <==> (j - i + LostBetween(log, i, j)) % 15 == 0
  {
    var p, q := Position(log, i), Position(log, j);
    PositionCounts(log, i);
    PositionCounts(log, j);
    PositionsGrow(log, i, j);
    SameNumber(outcomes, p, q);
    assert q - p == j - i + LostBetween(log, i, j);
  }

  lemma {:induction false} PositionsGrow(log: seq<Issue>, i: nat, j: nat)
    requires i <= j < |SentNumbers(log)|
    ensures Position(log, i) <= Position(log, j)
    decreases |log|
  {
    if !log[0].sent {
      PositionsGrow(log[1..], i, j);
    } else if i > 0 {
      PositionsGrow(log[1..], i - 1, j - 1);
    }
  }

  /** Two different commands less than fifteen sends apart. */
  predicate Near(log: seq<Issue>, i: int, j: int) {
    0 <= i < j < |SentNumbers(log)| && j - i < 15
  }

  predicate Differ(log: seq<Issue>, i: int, j: int)
    requires Near(log, i, j)
  {
    SentNumbers(log)[i] != SentNumbers(log)[j]
  }

  /** The losses between two commands do not fill up a round. */
  predicate Harmless(log: seq<Issue>, i: int, j: int)
    requires Near(log, i, j)
  {
    (j - i + LostBetween(log, i, j)) % 15 != 0
  }

  lemma DifferIffHarmless(calls: seq<Call>, i: int, j: int)
    requires Near(RunLog(calls), i, j)
    ensures Differ(RunLog(calls), i, j) <==> Harmless(RunLog(calls), i, j)
  {
    Collide(calls, i, j);
  }

  /** Any fifteen commands sent in a row carry different numbers. */
  ghost predicate FifteenDiffer(log: seq<Issue>) {
    forall i, j :: Near(log, i, j) ==> Differ(log, i, j)
  }

  ghost predicate LossesHarmless(log: seq<Issue>) {
    forall i, j :: Near(log, i, j) ==> Harmless(log, i, j)
  }

  /** The exact condition, for every run. */
  lemma FifteenInARow(calls: seq<Call>)
    ensures FifteenDiffer(RunLog(calls)) <==> LossesHarmless(RunLog(calls))
  {
    forall i, j | Near(RunLog(calls), i, j)
      ensures Differ(RunLog(calls), i, j) <==> Harmless(RunLog(calls), i, j)
    {
      DifferIffHarmless(calls, i, j);
    }
  }

  lemma {:induction false} NothingLost(log: seq<Issue>, n: nat)
    requires n <= |log| && forall k :: 0 <= k < n ==> log[k].sent
    ensures Lost(log, n) == 0
    decreases n
  {
    if n > 0 {
      NothingLost(log[1..], n - 1);
    }
  }

  lemma NoLossHarmless(log: seq<Issue>, i: int, j: int)
    requires Near(log, i, j) && forall k :: 0 <= k < |log| ==> log[k].sent
    ensures Harmless(log, i, j)
  {
    NothingLost(log, Position(log, i));
    NothingLost(log, Position(log, j));
  }

  /** In particular a run that loses no number meets it. */
  lemma NoLossNoCollision(calls: seq<Call>)
    requires forall k :: 0 <= k < |RunOutcomes(calls)| ==> RunOutcomes(calls)[k]
    ensures FifteenDiffer(RunLog(calls))
  {
    var log := RunLog(calls);
    forall i, j | Near(log, i, j) ensures Harmless(log, i, j) {
      NoLossHarmless(log, i, j);
    }
    FifteenInARow(calls);
  }

  // ---- A run that does not meet it ----

  const NO_MEMORY := Call.Start(false, false, false, false, false, false, false)

  lemma {:induction false} OutcomesOfFailingStarts(n: nat, rest: seq<Call>)
    ensures RunOutcomes(seq(n, _ => NO_MEMORY) + rest) == seq(n, _ => false) + RunOutcomes(rest)
  {
    var calls := seq(n, _ => NO_MEMORY) + rest;
    if n == 0 {
      assert calls == rest;
    } else {
      assert calls[1..] == seq(n - 1, _ => NO_MEMORY) + rest;
      OutcomesOfFailingStarts(n - 1, rest);
    }
  }

  lemma {:induction false} NoneSent(a: seq<Issue>, b: seq<Issue>)
    requires forall i :: 0 <= i < |a| ==> !a[i].sent
    ensures SentNumbers(a + b) == SentNumbers(b)
  {
    if a != [] {
      assert (a + b)[1..] == a[1..] + b;
      NoneSent(a[1..], b);
    } else {
      assert a + b == b;
    }
  }

  /** A channel switch whose second command fails, thirteen starts without memory and another such
      switch: the two commands that were sent, one after the other, carry the same number. */
  lemma LostNumbersCollide()
    ensures var calls := [Switch(true, false)] + seq(13, _ => NO_MEMORY) + [Switch(true, false)];
      SentNumbers(RunLog(calls)) == [1, 1] && !FifteenDiffer(RunLog(calls))
  {
    var rest := [Switch(true, false)];
    var calls := [Switch(true, false)] + seq(13, _ => NO_MEMORY) + rest;
    assert calls[1..] == seq(13, _ => NO_MEMORY) + rest;
    OutcomesOfFailingStarts(13, rest);
    assert RunOutcomes(rest) == [true, false] + [];
    assert RunOutcomes(calls) == [true, false] + (seq(13, _ => false) + [true, false]);
    var log := RunLog(calls);
    assert log == [Issue(1, true)] + log[1..15] + [Issue(1, true), Issue(2, false)];
    assert log[1..] == log[1..15] + [Issue(1, true), Issue(2, false)];
    NoneSent(log[1..15], [Issue(1, true), Issue(2, false)]);
    assert [Issue(1, true), Issue(2, false)][1..] == [Issue(2, false)];
    assert SentNumbers([Issue(2, false)]) == [];
    assert SentNumbers(log) == [1, 1];
    assert Near(log, 0, 1) && !Differ(log, 0, 1);
  }
}
