/**
 The loss response of src/rate_control.rs: how often within one loss epoch the sending period
 grows. The period is a real number here; what an ACK or the end of slow start set it to is a
 free choice of the event, as is the random draw.
 */
module RateControlModel {
  import opened SeqNumber

  datatype Rate = Rate(slowStart: bool, rateKnown: bool, loss: bool, period: real, lastDecPeriod: real,
                       lastDecSeq: nat, currSnd: nat, nakCount: nat, avgNakNum: nat, decRandom: nat, decCount: nat)

  function Fresh(): Rate {
    Rate(true, false, false, 1.0, 1.0, SEQ_MAX, 0, 0, 0, 1, 0)
  }

  /** The average the source computes in floating point and rounds up; exact for small counts. */
  function Average(avg: nat, naks: nat): nat {
    (7 * avg + naks + 7) / 8
  }

  /** It is the least whole number not below 0.875 times the average plus 0.125 times the count. */
  lemma AverageIsCeiling(avg: nat, naks: nat)
    ensures
      var exact := avg as real * 0.875 + naks as real * 0.125;
      exact <= Average(avg, naks) as real < exact + 1.0
  {
    var n := Average(avg, naks);
    assert 7 * avg + naks <= 8 * n < 7 * avg + naks + 8;
    assert (7 * avg + naks) as real == 7.0 * avg as real + naks as real;
  }

  /** `init`, at the start of a connection whose first number is `n`; `known` says that a rate is known. */
  function AfterInit(r: Rate, n: nat, known: bool): Rate {
    r.(slowStart := true, loss := false, rateKnown := known, currSnd := n, lastDecSeq := Add(n, -1))
  }

  /** A NAK whose first number lies beyond the last decrease opens a new epoch. */
  predicate OpensEpoch(r: Rate, seqNumber: nat) {
    !(r.slowStart && r.rateKnown) && Diff(seqNumber, r.lastDecSeq) > 0
  }

  /** A loss within an epoch multiplies the period when the count of NAKs is such a multiple. */
  predicate Due(nakCount: nat, decRandom: nat)
    requires decRandom > 0
  {
    nakCount % decRandom == 0
  }

  /** `mul_f64(1.125)`. */
  function Grown(period: real): real {
    period * 1.125
  }

  /** `on_loss`; `draw` is the random number, `exit` the period slow start ends with. */
  function OnLoss(r: Rate, seqNumber: nat, draw: nat, exit: real): Rate
    requires r.decRandom > 0
  {
    var r1 := if r.slowStart then r.(slowStart := false, period := exit) else r;
    if r.slowStart && r.rateKnown then r1
    else if Diff(seqNumber, r.lastDecSeq) > 0 then
      var avg := Average(r.avgNakNum, r.nakCount);
      r1.(loss := true, lastDecPeriod := r1.period, period := Grown(r1.period), avgNakNum := avg,
          nakCount := 1, decCount := 1, lastDecSeq := r.currSnd, decRandom := if avg == 0 then 1 else draw)
    else if r.decCount + 1 > 5 then r1.(loss := true, decCount := r.decCount + 1)
    else
      var r2 := r1.(loss := true, decCount := r.decCount + 1, nakCount := r.nakCount + 1);
      if Due(r2.nakCount, r2.decRandom) then r2.(period := Grown(r2.period), lastDecSeq := r2.currSnd) else r2
  }

  /** Whether `on_loss` multiplies the period. */
  predicate Multiplies(r: Rate, seqNumber: nat)
    requires r.decRandom > 0
  {
    && !(r.slowStart && r.rateKnown)
    && (Diff(seqNumber, r.lastDecSeq) > 0 || (r.decCount < 5 && Due(r.nakCount + 1, r.decRandom)))
  }

  /** What a loss finds the period at: slow start ends with `exit`. */
  function Base(r: Rate, exit: real): real {
    if r.slowStart then exit else r.period
  }

  /**
   What a loss does, in every case. The period is multiplied by 9/8 exactly when `Multiplies`
   says so; then, and only then, later losses of packets sent so far belong to this epoch. A loss
   that opens an epoch records the period it found and starts the counts anew; one within an
   epoch counts on, the NAKs only up to five decreases. Slow start is over; a loss that ends it
   with a known rate does nothing more.
   */
  lemma LossOutcome(r: Rate, n: nat, draw: nat, exit: real)
    requires r.decRandom > 0
    ensures
      var r' := OnLoss(r, n, draw, exit);
      && r'.period == (if Multiplies(r, n) then 1.125 * Base(r, exit) else Base(r, exit))
      && Grown(Base(r, exit)) == 1.125 * Base(r, exit)
      && r'.lastDecSeq == (if Multiplies(r, n) then r.currSnd else r.lastDecSeq)
      && !r'.slowStart && r'.rateKnown == r.rateKnown && r'.currSnd == r.currSnd
      && (r.slowStart && r.rateKnown ==> r' == r.(slowStart := false, period := exit))
      && (!(r.slowStart && r.rateKnown) ==> r'.loss)
      && (OpensEpoch(r, n) ==>
            && Multiplies(r, n) && r'.lastDecPeriod == Base(r, exit)
            && r'.avgNakNum == Average(r.avgNakNum, r.nakCount) && r'.nakCount == 1 && r'.decCount == 1
            && r'.decRandom == if r'.avgNakNum == 0 then 1 else draw)
      && (!OpensEpoch(r, n) ==>
            r'.lastDecPeriod == r.lastDecPeriod && r'.avgNakNum == r.avgNakNum && r'.decRandom == r.decRandom)
      && (!OpensEpoch(r, n) && !(r.slowStart && r.rateKnown) ==>
            r'.decCount == r.decCount + 1 && r'.nakCount == if r.decCount < 5 then r.nakCount + 1 else r.nakCount)
  {
    hide Diff, Average, Due;
  }

  /**
   After `init` the loss of any packet of the connection opens an epoch unless a rate is known,
   except with the initial number 0, whose predecessor is the maximum.
   */
  lemma FirstLossOpens(r: Rate, n: nat, known: bool, seqNumber: nat)
    requires n <= SEQ_MAX && seqNumber <= SEQ_MAX
    ensures OpensEpoch(AfterInit(r, n, known), seqNumber) <==> !known && 0 < n <= seqNumber
    ensures
      var r' := AfterInit(r, n, known);
      && r'.slowStart && !r'.loss && r'.rateKnown == known && r'.currSnd == n && r'.period == r.period
      && r'.lastDecPeriod == r.lastDecPeriod && r'.nakCount == r.nakCount && r'.avgNakNum == r.avgNakNum
      && r'.decRandom == r.decRandom && r'.decCount == r.decCount
  {
    DiffSign(seqNumber, Add(n, -1));
    hide Diff;
  }

  /** Losses of packets sent before an epoch opened belong to that epoch. */
  lemma EpochCoversSent(r: Rate, seqNumber: nat, draw: nat, exit: real, earlier: nat)
    requires r.decRandom > 0 && OpensEpoch(r, seqNumber) && earlier <= r.currSnd <= SEQ_MAX
    ensures !OpensEpoch(OnLoss(r, seqNumber, draw, exit), earlier)
  {
    DiffSign(earlier, r.currSnd);
    hide Diff;
  }

  datatype RateEvent =
    | Init(n: nat, known: bool)
    | Loss(seqNumber: nat, draw: nat, exit: real)
    | Ack(slowStart: bool, loss: bool, ackPeriod: real)
    | Measured(rateKnown: bool)
    | Sent(sent: nat)
    | Timeout(exit: real)

  function OnTimeout(r: Rate, exit: real): Rate {
    if r.slowStart then r.(slowStart := false, period := exit) else r
  }

  /**
   A run keeps, beside the state, the number of multiplications since the epoch opened, the value
   the period was last set to other than by multiplying, and the multiplications since then.
   */
  datatype Traced = Traced(rate: Rate, multiplied: nat, base: real, since: nat)

  /** The draw lies between 1 and the new average, as the random generator is asked for. */
  predicate Possible(r: Rate, e: RateEvent) {
    e.Loss? && OpensEpoch(r, e.seqNumber) ==>
      var average := Average(r.avgNakNum, r.nakCount);
      1 <= e.draw && (average == 0 || e.draw <= average)
  }

  function Advance(t: Traced, e: RateEvent): Traced
    requires t.rate.decRandom > 0
  {
    var r := t.rate;
    match e
    case Init(n, known) => t.(rate := AfterInit(r, n, known))
    case Loss(n, draw, exit) =>
      var more := if Multiplies(r, n) then 1 else 0;
      var anew := OpensEpoch(r, n) || r.slowStart;
      Traced(OnLoss(r, n, draw, exit), (if OpensEpoch(r, n) then 0 else t.multiplied) + more,
             if anew then Base(r, exit) else t.base, (if anew then 0 else t.since) + more)
    case Ack(slowStart, loss, period) =>
      t.(rate := r.(slowStart := slowStart, loss := loss, period := period), base := period, since := 0)
    case Measured(known) => t.(rate := r.(rateKnown := known))
    case Sent(n) => t.(rate := r.(currSnd := n))
    case Timeout(exit) =>
      if r.slowStart then t.(rate := OnTimeout(r, exit), base := exit, since := 0) else t.(rate := OnTimeout(r, exit))
  }

  /** The bounds every run keeps. */
  ghost predicate Bounded(t: Traced) {
    && t.rate.nakCount <= 5 && t.rate.nakCount <= t.rate.decCount
    && t.rate.avgNakNum <= 5
    && 1 <= t.rate.decRandom <= 5
    && t.multiplied <= 5 && t.multiplied <= t.rate.decCount && t.since <= t.multiplied
  }

  lemma AdvanceKeepsBounds(t: Traced, e: RateEvent)
    requires Bounded(t) && Possible(t.rate, e)
    ensures Bounded(Advance(t, e))
  {
    assert Average(t.rate.avgNakNum, t.rate.nakCount) <= 5;
  }

  /** The state after a possible event, within the bounds again. */
  ghost function Next(t: Traced, e: RateEvent): (d: Traced)
    requires Bounded(t) && Possible(t.rate, e)
    ensures Bounded(d)
  {
    AdvanceKeepsBounds(t, e);
    Advance(t, e)
  }

  ghost predicate PossibleRun(t: Traced, es: seq<RateEvent>)
    requires Bounded(t)
    decreases |es|
  {
    es != [] ==>
      Possible(t.rate, es[0]) && PossibleRun(Next(t, es[0]), es[1..])
  }

  ghost function RunRate(t: Traced, es: seq<RateEvent>): Traced
    requires Bounded(t) && PossibleRun(t, es)
    decreases |es|
  {
    if es == [] then t else RunRate(Next(t, es[0]), es[1..])
  }

  lemma {:induction false} RunKeepsBounds(t: Traced, es: seq<RateEvent>)
    requires Bounded(t) && PossibleRun(t, es)
    ensures Bounded(RunRate(t, es))
    decreases |es|
  {
    if es != [] {
      RunKeepsBounds(Next(t, es[0]), es[1..]);
    }
  }

  const START: Traced := Traced(Fresh(), 0, 1.0, 0)

  lemma StartIsBounded()
    ensures Bounded(START)
  {
  }

  /** The draws of a run from a fresh controller lie in the ranges the generator is asked for. */
  ghost predicate FromStart(es: seq<RateEvent>) {
    StartIsBounded();
    PossibleRun(START, es)
  }

  /**
   In every run of inits, losses, ACKs, timeouts and sends of a fresh controller the counters stay at
   most 5, the divisor of the modulus stays between 1 and 5, and the period is multiplied at most
   five times per epoch.
   */
  lemma CountersBounded(es: seq<RateEvent>)
    requires FromStart(es)
    ensures Bounded(RunRate(START, es))
  {
    RunKeepsBounds(START, es);
  }

  // ---------------------------------------------------------------- how far the period grows

  function Power(k: nat): real {
    if k == 0 then 1.0 else 1.125 * Power(k - 1)
  }

  /** The period is what it was last set to, times 9/8 for every multiplication since. */
  ghost predicate Tracks(t: Traced) {
    t.rate.period == Power(t.since) * t.base
  }

  lemma OneMorePower(k: nat, base: real)
    ensures Power(k + 1) * base == (Power(k) * base) * 1.125 && Power(0) * base == base
  {
    assert Power(k + 1) == 1.125 * Power(k);
    hide Power;
  }

  lemma AdvanceTracks(t: Traced, e: RateEvent)
    requires t.rate.decRandom > 0 && Tracks(t)
    ensures Tracks(Advance(t, e))
  {
    OneMorePower(t.since, t.base);
    OneMorePower(0, t.base);
    match e
    case Loss(n, draw, exit) =>
      var base := Base(t.rate, exit);
      OneMorePower(0, base);
      LossOutcome(t.rate, n, draw, exit);
      hide OnLoss, Multiplies, OpensEpoch, Power;
    case Ack(_, _, period) => OneMorePower(0, period);
    case Timeout(exit) => OneMorePower(0, exit);
    case _ =>
  }

  /** In every run of a fresh controller the period is the last value set times that power of 9/8. */
  lemma {:induction false} RunTracks(t: Traced, es: seq<RateEvent>)
    requires Bounded(t) && PossibleRun(t, es) && Tracks(t)
    ensures Tracks(RunRate(t, es))
    decreases |es|
  {
    if es != [] {
      AdvanceTracks(t, es[0]);
      hide Advance, Bounded, Tracks, Possible;
      RunTracks(Next(t, es[0]), es[1..]);
    }
  }

  lemma PeriodTracked(es: seq<RateEvent>)
    requires FromStart(es)
    ensures
      var t := RunRate(START, es);
      t.rate.period == Power(t.since) * t.base && t.since <= t.multiplied <= 5
  {
    StartIsBounded();
    RunTracks(START, es);
    RunKeepsBounds(START, es);
    hide Power, RunRate;
  }

  /** Nothing but losses within the epoch, measurements and sends: what does not set the period anew. */
  ghost predicate WithinEpoch(t: Traced, es: seq<RateEvent>)
    requires Bounded(t) && PossibleRun(t, es)
    decreases |es|
  {
    es != [] ==>
      && (es[0].Measured? || es[0].Sent? || (es[0].Loss? && !OpensEpoch(t.rate, es[0].seqNumber) && !t.rate.slowStart))
      && WithinEpoch(Next(t, es[0]), es[1..])
  }

  lemma {:induction false} EpochKeepsBase(t: Traced, es: seq<RateEvent>)
    requires Bounded(t) && PossibleRun(t, es) && WithinEpoch(t, es) && t.since == t.multiplied
    ensures RunRate(t, es).base == t.base && RunRate(t, es).since == RunRate(t, es).multiplied
    decreases |es|
  {
    if es != [] {
      EpochKeepsBase(Next(t, es[0]), es[1..]);
    }
  }

  /**
   From the loss that opens an epoch on, through any number of losses within it, the period is
   the one the opening loss found, times 9/8 to the number of multiplications in the epoch.
   */
  lemma EpochPeriod(t: Traced, n: nat, draw: nat, exit: real, es: seq<RateEvent>)
    requires Bounded(t) && Tracks(t) && OpensEpoch(t.rate, n) && Possible(t.rate, Loss(n, draw, exit))
    requires PossibleRun(Next(t, Loss(n, draw, exit)), es) && WithinEpoch(Next(t, Loss(n, draw, exit)), es)
    ensures
      var d := RunRate(Next(t, Loss(n, draw, exit)), es);
      d.rate.period == Power(d.multiplied) * Base(t.rate, exit) && 1 <= d.multiplied <= 5
  {
    hide Power, RunRate, WithinEpoch, PossibleRun, OnLoss;
    var e := Loss(n, draw, exit);
    AdvanceKeepsBounds(t, e);
    AdvanceTracks(t, e);
    LossOutcome(t.rate, n, draw, exit);
    var start := Next(t, e);
    assert start.since == start.multiplied == 1 && start.base == Base(t.rate, exit);
    hide Advance, Base, Next;
    RunTracks(start, es);
    RunKeepsBounds(start, es);
    EpochKeepsBase(start, es);
    EpochCounts(start, es);
  }

  lemma {:induction false} EpochCounts(t: Traced, es: seq<RateEvent>)
    requires Bounded(t) && PossibleRun(t, es) && WithinEpoch(t, es)
    ensures t.multiplied <= RunRate(t, es).multiplied
    decreases |es|
  {
    if es != [] {
      EpochCounts(Next(t, es[0]), es[1..]);
    }
  }

  /** Losses that all belong to the epoch already open. */
  ghost predicate OneEpoch(r: Rate, losses: seq<nat>)
    requires r.decRandom > 0
    decreases |losses|
  {
    losses != [] ==>
      && !OpensEpoch(r, losses[0])
      && OneEpoch(OnLoss(r, losses[0], 1, 0.0), losses[1..])
  }

  function Burst(r: Rate, losses: seq<nat>): Rate
    requires r.decRandom > 0 && OneEpoch(r, losses)
    decreases |losses|
  {
    if losses == [] then r else Burst(OnLoss(r, losses[0], 1, 0.0), losses[1..])
  }

  lemma LossWithin(r: Rate, n: nat)
    requires r.decRandom > 0 && !r.slowStart && !OpensEpoch(r, n)
    ensures
      var r' := OnLoss(r, n, 1, 0.0);
      && r'.period == (if Multiplies(r, n) then 1.125 * r.period else r.period)
      && r'.decCount == r.decCount + 1 && r'.decRandom == r.decRandom && !r'.slowStart
      && (Multiplies(r, n) ==> r.decCount < 5)
  {
  }

  /**
   However long a burst of losses within one epoch, out of slow start, the period ends as a
   power of 9/8 times what it was, with an exponent of at most what is left of five.
   */
  lemma {:induction false} BurstGrowth(r: Rate, losses: seq<nat>) returns (k: nat)
    requires r.decRandom > 0 && !r.slowStart && OneEpoch(r, losses)
    ensures Burst(r, losses).period == Power(k) * r.period
    ensures k <= (if r.decCount <= 5 then 5 - r.decCount else 0)
    decreases |losses|
  {
    if losses == [] {
      k := 0;
    } else {
      var r' := OnLoss(r, losses[0], 1, 0.0);
      LossWithin(r, losses[0]);
      var k' := BurstGrowth(r', losses[1..]);
      assert Burst(r, losses) == Burst(r', losses[1..]);
      hide OnLoss, Multiplies, Burst, OneEpoch;
      if Multiplies(r, losses[0]) {
        k := k' + 1;
        assert Power(k) * r.period == Power(k') * (1.125 * r.period);
      } else {
        k := k';
      }
    }
  }
}

/** The mutable controller of src/rate_control.rs, its loss and timeout handlers. */
module RateControl {
  import opened SeqNumber
  import opened M = RateControlModel

  class RateControl {
    var slowStart: bool
    var rateKnown: bool
    var loss: bool
    var pktSendPeriod: real
    var lastDecPeriod: real
    var lastDecSeq: nat
    var currSndSeqNumber: nat
    var nakCount: nat
    var avgNakNum: nat
    var decRandom: nat
    var decCount: nat

    ghost function Value(): Rate
      reads this
    {
      Rate(slowStart, rateKnown, loss, pktSendPeriod, lastDecPeriod, lastDecSeq, currSndSeqNumber,
           nakCount, avgNakNum, decRandom, decCount)
    }

    constructor ()
      ensures Value() == Fresh()
    {
      slowStart, rateKnown, loss := true, false, false;
      pktSendPeriod, lastDecPeriod := 1.0, 1.0;
      lastDecSeq, currSndSeqNumber := Add(0, -1), 0;
      nakCount, avgNakNum, decRandom, decCount := 0, 0, 1, 0;
    }

    method Init(n: nat, known: bool)
      modifies this
      ensures Value() == M.AfterInit(old(Value()), n, known)
      ensures slowStart && !loss && rateKnown == known && currSndSeqNumber == n
      ensures n <= SEQ_MAX ==> forall m: nat :: m <= SEQ_MAX ==> (OpensEpoch(Value(), m) <==> !known && 0 < n <= m)
    {
      slowStart, loss, rateKnown := true, false, known;
      currSndSeqNumber := n;
      lastDecSeq := Add(n, -1);
      if n <= SEQ_MAX {
        forall m: nat | m <= SEQ_MAX
          ensures OpensEpoch(Value(), m) <==> !known && 0 < n <= m
        {
          FirstLossOpens(old(Value()), n, known, m);
        }
      }
    }

    method OnLoss(lossSeq: nat, draw: nat, exit: real)
      requires decRandom > 0
      modifies this
      ensures Value() == M.OnLoss(old(Value()), lossSeq, draw, exit)
      ensures pktSendPeriod ==
              if Multiplies(old(Value()), lossSeq) then Grown(Base(old(Value()), exit)) else Base(old(Value()), exit)
    {
      LossOutcome(Value(), lossSeq, draw, exit);
      hide Due, Average, Diff, Multiplies, OpensEpoch, Base, Grown;
      if slowStart {
        slowStart := false;
        pktSendPeriod := exit;
        if rateKnown {
          return;
        }
      }
      loss := true;
      if Diff(lossSeq, lastDecSeq) > 0 {
        lastDecPeriod := pktSendPeriod;
        pktSendPeriod := Grown(pktSendPeriod);
        avgNakNum := Average(avgNakNum, nakCount);
        nakCount, decCount := 1, 1;
        lastDecSeq := currSndSeqNumber;
        decRandom := if avgNakNum == 0 then 1 else draw;
      } else {
        decCount := decCount + 1;
        if decCount <= 5 {
          nakCount := nakCount + 1;
          if Due(nakCount, decRandom) {
            pktSendPeriod := Grown(pktSendPeriod);
            lastDecSeq := currSndSeqNumber;
          }
        }
      }
    }

    method OnTimeout(exit: real)
      modifies this
      ensures Value() == M.OnTimeout(old(Value()), exit)
      ensures !slowStart && (!old(slowStart) ==> pktSendPeriod == old(pktSendPeriod))
      ensures nakCount == old(nakCount) && avgNakNum == old(avgNakNum) && decRandom == old(decRandom)
      ensures decCount == old(decCount) && lastDecSeq == old(lastDecSeq) && lastDecPeriod == old(lastDecPeriod)
      ensures rateKnown == old(rateKnown) && loss == old(loss) && currSndSeqNumber == old(currSndSeqNumber)
    {
      if slowStart {
        slowStart := false;
        pktSendPeriod := exit;
      }
    }
  }
}
