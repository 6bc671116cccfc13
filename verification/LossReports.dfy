/**
 Loss reports from the receiver's gap to the sender's schedule: what a NAK lists, in the
 compressed form of the protocol, is what the receiver found missing, and what it lists is what
 the sender schedules, from its last ACK on.
 */
module LossReports {
  import opened SeqNumber
  import opened OrderedKeys
  import opened Packets
  import opened LossListModel
  import opened Connection
  import opened Invariant
  import S = SenderModel
  import R = ReceiverModel
  import RB = RcvBufferModel

  /** The number `x` lies in one of the ranges of the loss information. */
  ghost predicate Listed(info: seq<nat>, x: int)
    decreases |info|
  {
    && info != [] && S.FrontRange(info).Some?
    && (S.FrontRange(info).value.0 <= x <= S.FrontRange(info).value.1 || Listed(info[S.FrontRange(info).value.2..], x))
  }

  /** A range is cut short, reversed, or runs past what has been sent. */
  ghost predicate Malformed(currSnd: nat, info: seq<nat>)
    decreases |info|
  {
    && info != []
    && (S.FrontRange(info).None?
        || S.FrontRange(info).value.0 > S.FrontRange(info).value.1
        || S.FrontRange(info).value.1 > currSnd
        || Malformed(currSnd, info[S.FrontRange(info).value.2..]))
  }

  /** The number `x` lies in one of the ranges in front of the first malformed one. */
  ghost predicate ListedBefore(currSnd: nat, info: seq<nat>, x: int)
    decreases |info|
  {
    && info != [] && S.FrontRange(info).Some?
    && S.FrontRange(info).value.0 <= S.FrontRange(info).value.1 <= currSnd
    && (S.FrontRange(info).value.0 <= x <= S.FrontRange(info).value.1
        || ListedBefore(currSnd, info[S.FrontRange(info).value.2..], x))
  }

  /** Without a malformed range these are all the ranges. */
  lemma {:induction false} BeforeIsAll(currSnd: nat, info: seq<nat>, x: int)
    requires !Malformed(currSnd, info)
    ensures ListedBefore(currSnd, info, x) <==> Listed(info, x)
    decreases |info|
  {
    if info != [] {
      BeforeIsAll(currSnd, info[S.FrontRange(info).value.2..], x);
    }
  }

  lemma RecordMeaning(s: S.Snd, first: nat, last: nat)
    requires WellFormed(s.lossList) && 1 <= s.lastAckReceived <= SEQ_MAX && first <= last <= SEQ_MAX
    ensures
      var s' := S.RecordLoss(s, first, last);
      && WellFormed(s'.lossList) && s' == s.(lossList := s'.lossList)
      && forall x :: Has(s'.lossList, x) <==> Has(s.lossList, x) || (first <= x <= last && s.lastAckReceived <= x)
  {
    DiffSign(first, s.lastAckReceived);
    DiffSign(last, s.lastAckReceived);
    if first >= s.lastAckReceived {
      InsertMeaning(s.lossList, first, last);
    } else if last >= s.lastAckReceived {
      InsertMeaning(s.lossList, s.lastAckReceived, last);
    }
    hide Insert, Has, WellFormed;
  }

  lemma {:induction false} NakRecords(s: S.Snd, info: seq<nat>)
    requires WellFormed(s.lossList) && 1 <= s.lastAckReceived <= SEQ_MAX && s.currSnd <= SEQ_MAX && S.InRange(info)
    ensures
      var (broken, s') := S.NakLoop(s, info);
      && WellFormed(s'.lossList) && s' == s.(lossList := s'.lossList)
      && (broken <==> Malformed(s.currSnd, info))
      && (forall x :: Has(s'.lossList, x) <==>
                      Has(s.lossList, x) || (ListedBefore(s.currSnd, info, x) && s.lastAckReceived <= x))
    decreases |info|
  {
    if info != [] && S.FrontRange(info).Some? {
      var (first, last, n) := S.FrontRange(info).value;
      DiffSign(first, last);
      DiffSign(last, s.currSnd);
      hide Diff;
      if !S.Refused(s, first, last) {
        RecordMeaning(s, first, last);
        var s1 := S.RecordLoss(s, first, last);
        NakRecords(s1, info[n..]);
        hide S.RecordLoss, Has, WellFormed, S.FrontRange, S.InRange;
      }
    }
  }

  /**
   For a NAK with any number of ranges: the sender breaks exactly when one is malformed, having
   scheduled what is listed before it; if none is, it schedules exactly the numbers listed that it
   has not seen acknowledged.
   */
  lemma NakMeaning(s: S.Snd, info: seq<nat>)
    requires WellFormed(s.lossList) && 1 <= s.lastAckReceived <= SEQ_MAX && s.currSnd <= SEQ_MAX && S.InRange(info)
    ensures
      var (broken, s') := S.NakLoop(s, info);
      && WellFormed(s'.lossList) && s' == s.(lossList := s'.lossList)
      && (broken <==> Malformed(s.currSnd, info))
      && (forall x :: Has(s'.lossList, x) <==>
                      Has(s.lossList, x) || (ListedBefore(s.currSnd, info, x) && s.lastAckReceived <= x))
      && (!broken ==> forall x :: Has(s'.lossList, x) <==>
                                  Has(s.lossList, x) || (Listed(info, x) && s.lastAckReceived <= x))
  {
    hide S.NakLoop, Has, WellFormed, Malformed, S.InRange;
    NakRecords(s, info);
    if !Malformed(s.currSnd, info) {
      forall x
        ensures ListedBefore(s.currSnd, info, x) <==> Listed(info, x)
      {
        BeforeIsAll(s.currSnd, info, x);
      }
    }
  }

  /** The compressed form of a gap lists exactly the gap. */
  lemma GapIsListed(a: nat, b: nat, x: int)
    requires a <= b <= SEQ_MAX
    ensures Listed(R.GapInfo(a, b), x) <==> a <= x <= b
    ensures S.InRange(R.GapInfo(a, b))
  {
    var info := R.GapInfo(a, b);
    assert S.FrontRange(info) == Some((a, b, |info|));
    assert info[|info|..] == [];
  }

  /** The NAK sent for a packet lists exactly the numbers it reveals as missing. */
  lemma NakReportsGap(c: Sys, p: Packet, x: nat)
    requires Inv(c) && DataMsg(p) in c.net && R.Admits(c.rcv, p.seqNumber)
    ensures
      var (r', nak) := R.OnData(c.rcv, p);
      && (nak.Some? <==> p.seqNumber > c.rcv.currRcv + 1)
      && (nak.Some? ==> (Listed(nak.value, x) <==> Has(r'.lossList, x) && !Has(c.rcv.lossList, x)))
      && (nak.Some? ==> (Listed(nak.value, x) <==> c.rcv.currRcv < x < p.seqNumber))
  {
    hide R.OnData, Listed, Has, R.Admits, HistoryInv, BufferInv, LossInv, PendingInv, SplitInv, AckInv, StreamInv, WindowInv;
    assert GoodMsg(c, DataMsg(p));
    AdmittedIsGood(c, p);
    DataShape(c.rcv, p);
    if p.seqNumber > c.rcv.currRcv + 1 {
      GapIsListed(c.rcv.currRcv + 1, p.seqNumber - 1, x);
      GapInserted(c.isn, c.received, c.rcv, p, x);
    }
  }

  lemma GapInserted(isn: nat, received: set<nat>, r: R.Rcv, p: Packet, x: nat)
    requires SplitInv(isn, received, r) && 1 <= isn && r.currRcv + 1 < p.seqNumber <= SEQ_MAX && R.Admits(r, p.seqNumber)
    requires Diff(p.seqNumber, r.currRcv) > 1
    ensures Has(R.OnData(r, p).0.lossList, x) && !Has(r.lossList, x) <==> r.currRcv < x < p.seqNumber
  {
    hide Insert, Has, R.Admits, Diff, WellFormed, RB.Insert;
    InsertMeaning(r.lossList, r.currRcv + 1, p.seqNumber - 1);
    assert R.OnData(r, p).0.lossList == Insert(r.lossList, r.currRcv + 1, p.seqNumber - 1);
    hide R.OnData;
  }

  /** A NAK between the two peers schedules exactly what it lists from the last ACK on. */
  lemma NakSchedules(c: Sys, info: seq<nat>, x: nat)
    requires Inv(c) && Top(c.snd) <= SEQ_MOD && Nak(info) in c.net
    ensures Has(S.OnNak(c.snd, info).lossList, x) <==>
      Has(c.snd.lossList, x) || (Listed(info, x) && c.snd.lastAckReceived <= x)
  {
    assert GoodMsg(c, Nak(info));
    var a, b :| c.isn <= a <= b < c.rcv.currRcv && info == R.GapInfo(a, b);
    GapIsListed(a, b, x);
    NakMeaning(c.snd, info);
    assert !Malformed(c.snd.currSnd, info) by {
      assert S.FrontRange(info) == Some((a, b, |info|));
      assert info[|info|..] == [];
    }
  }
}
