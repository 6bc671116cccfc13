/** From every live state the accepted bytes can still all be delivered, unless numbers run out. */
module Reliability {
  import opened SeqNumber
  import opened OrderedKeys
  import opened Packets
  import opened LossListModel
  import opened Connection
  import opened Invariant
  import opened StreamSafety
  import opened Recovery
  import opened Rounds
  import S = SenderModel
  import R = ReceiverModel
  import SB = SndBufferModel

  // ---------------------------------------------------------------- a continuation

  lemma AllRead(c: Sys)
    requires HistoryInv(c.messages, c.history, c.snd.buf)
    requires StreamInv(c.isn, c.history, c.received, c.rcv.buf, c.delivered)
    ensures c.rcv.buf.nextToRead == c.isn + |c.history| ==> c.delivered == Flatten(c.messages)
  {
    SB.ReassembleAll(c.messages, c.snd.buf.payloadSize, 0);
    assert c.history[..|c.history|] == c.history;
  }

  /** Once every block has been read, every byte has been delivered. */
  lemma ReadIsComplete(c: Sys)
    requires Live(c) && c.rcv.buf.nextToRead == c.isn + |c.history|
    ensures c.delivered == Flatten(c.messages)
  {
    AllRead(c);
  }

  /** The rounds it takes to bring every accepted block across. */
  ghost function Outstanding(c: Sys): nat {
    var left := c.isn + |c.history| - R.NextMissing(c.rcv);
    if left >= 1 then left else 1
  }

  ghost function Repeated(w: int, c: Sys, n: nat): Sys
    decreases n
  {
    if n == 0 then c else Repeated(w, Round(w, c), n - 1)
  }

  /** Left to themselves, the two ends are done after as many rounds as blocks are outstanding. */
  lemma {:induction false} RoundsComplete(w: int, c: Sys, n: nat)
    requires Live(c) && !Harmful(c) && w >= 0 && n >= Outstanding(c)
    ensures
      var d := Repeated(w, c, n);
      && Quiet(d) && Leads(w, c, d) && SameStream(c, d) && d.delivered == Flatten(c.messages)
      && R.NextMissing(d.rcv) == c.isn + |c.history|
    decreases n
  {
    hide Inv, RoomInv, R.NextMissing, Leads, Round, Released;
    var c1 := Round(w, c);
    RoundGains(w, c);
    NextIsFirst(c1);
    if n == 1 {
      assert Repeated(w, c, 1) == Repeated(w, c1, 0) == c1;
      ReadIsComplete(c1);
    } else {
      RoundsComplete(w, c1, n - 1);
      LeadsOn(w, c, c1, Repeated(w, c1, n - 1));
    }
  }

  lemma ClearPick(c: Sys)
    requires Live(c)
    ensures Live(c.(pending := None))
  {
    hide HistoryInv, BufferInv, LossInv, SplitInv, AckInv, StreamInv, WindowInv, CrossInv, ObeyInv;
    NetKept(c, c.(pending := None));
  }

  /** A message more in flight. */
  function Plus(c: Sys, m: Msg): Sys {
    c.(net := c.net + {m})
  }

  /** A message that is never delivered nor lost changes no step. */
  lemma PlusStep(c: Sys, e: Event, m: Msg)
    requires Enabled(c, e) && !e.Lose?
    ensures Enabled(Plus(c, m), e) && Apply(Plus(c, m), e) == Plus(Apply(c, e), m)
  {
    hide S.PickResend, S.ReadResend, S.FetchNew, S.OnFullAck, S.OnNak, S.OnExp, S.Send, S.OnLightAck;
    hide R.OnData, R.SendAck, R.Recv, R.Admits, R.OnAck2, SB.Segment;
    assert Apply(Plus(c, m), e).net == Apply(c, e).net + {m};
  }

  lemma {:induction false} PlusRun(w: int, c: Sys, es: seq<Event>, m: Msg)
    requires Legal(c, es) && AllSequential(c, es) && AllSteady(w, es)
    ensures Legal(Plus(c, m), es) && AllSequential(Plus(c, m), es) && Run(Plus(c, m), es) == Plus(Run(c, es), m)
    decreases |es|
  {
    if es != [] {
      hide Apply, Enabled;
      PlusStep(c, es[0], m);
      PlusRun(w, Apply(c, es[0]), es[1..], m);
    }
  }

  lemma PlusLeads(w: int, c: Sys, d: Sys, m: Msg)
    requires Leads(w, c, d)
    ensures Leads(w, Plus(c, m), Plus(d, m))
  {
    var es :| Legal(c, es) && AllSequential(c, es) && AllSteady(w, es) && Run(c, es) == d;
    PlusRun(w, c, es, m);
    hide AllSteady, AllSequential, Legal, Run, Plus;
  }

  /** What a harmful read leads to: a live state with one bad packet in flight. */
  lemma ReadHarm(w: int, c: Sys) returns (m: Msg)
    requires Live(c) && Harmful(c)
    ensures S.ReadResend(c.snd, c.pending.value).Some? && m == DataMsg(S.ReadResend(c.snd, c.pending.value).value)
    ensures Live(c.(pending := None)) && Leads(w, c, Plus(c.(pending := None), m))
  {
    hide Inv, RoomInv, Leads, Released, S.ReadResend;
    HarmFinds(c);
    ClearPick(c);
    m := DataMsg(S.ReadResend(c.snd, c.pending.value).value);
    LeadsStep(w, c, ReadResend);
    assert Apply(c, ReadResend) == Plus(c.(pending := None), m);
  }

  lemma HarmFinds(c: Sys)
    requires Harmful(c)
    ensures S.ReadResend(c.snd, c.pending.value).Some?
  {
  }

  /**
   From every live state, whatever the network has lost, there is a continuation, with new
   packets going out only under window `w` and nothing lost, that delivers every accepted byte.
   */
  lemma CanComplete(w: int, c: Sys) returns (d: Sys)
    requires Live(c) && w >= 0
    ensures Leads(w, c, d) && d.messages == c.messages && d.delivered == Flatten(c.messages)
  {
    hide Live, Leads;
    if Harmful(c) {
      var m := ReadHarm(w, c);
      var quiet := c.(pending := None);
      var n := Outstanding(quiet);
      RoundsComplete(w, quiet, n);
      PlusLeads(w, quiet, Repeated(w, quiet, n), m);
      d := Plus(Repeated(w, quiet, n), m);
      LeadsOn(w, c, Plus(quiet, m), d);
    } else {
      RoundsComplete(w, c, Outstanding(c));
      d := Repeated(w, c, Outstanding(c));
    }
  }

  // ---------------------------------------------------------------- the exact condition

  lemma {:induction false} RoomRun(c: Sys, es: seq<Event>)
    requires Inv(c) && RoomInv(c) && Legal(c, es) && AllUndisturbed(c, es)
    ensures RoomInv(Run(c, es))
    decreases |es|
  {
    hide Inv, RoomInv;
    if es != [] {
      StepKeepsInv(c, es[0]);
      StepKeepsRoom(c, es[0]);
      RoomRun(Apply(c, es[0]), es[1..]);
    }
  }

  lemma {:induction false} BytesStrict(blocks: seq<Block>, n: nat)
    requires n < |blocks| && forall i :: 0 <= i < |blocks| ==> blocks[i].data != []
    ensures Bytes(blocks[..n]) != Bytes(blocks)
  {
    BytesAppend(blocks[..n], blocks[n..]);
    assert blocks == blocks[..n] + blocks[n..];
    assert Bytes(blocks[n..]) == blocks[n].data + Bytes(blocks[n + 1..]) by {
      assert blocks[n..][1..] == blocks[n + 1..];
    }
  }

  /** What has been delivered completely had numbers to spare. */
  lemma CompleteHadNumbers(c: Sys)
    requires HistoryInv(c.messages, c.history, c.snd.buf) && AckInv(c.isn, c.received, c.rcv)
    requires StreamInv(c.isn, c.history, c.received, c.rcv.buf, c.delivered)
    requires c.delivered == Flatten(c.messages)
    ensures c.isn + |c.history| <= SEQ_MAX
  {
    DeliveredIsPrefix(c);
    SB.ReassembleAll(c.messages, c.snd.buf.payloadSize, 0);
    var n := c.rcv.buf.nextToRead - c.isn;
    if n < |c.history| {
      forall i | 0 <= i < |c.history|
        ensures c.history[i].data != []
      {
        assert c.history[i] in c.history;
      }
      BytesStrict(c.history, n);
    }
  }

  /** All accepted bytes can be delivered from `c`, with nothing more accepted. */
  ghost predicate Completable(w: int, c: Sys) {
    exists d :: Leads(w, c, d) && d.messages == c.messages && d.delivered == Flatten(c.messages)
  }

  /** With an initial number of 0 only the empty stream is ever complete. */
  lemma StalledCompletes(w: int, c: Sys)
    requires Stalled(c)
    ensures Completable(w, c) <==> c.history == []
  {
    if c.history == [] {
      LeadsSame(w, c);
      assert c.delivered == Flatten(c.messages);
    } else {
      assert Flatten(c.messages) == c.messages[0] + Flatten(c.messages[1..]);
    }
    if Completable(w, c) {
      var d :| Leads(w, c, d) && d.messages == c.messages && d.delivered == Flatten(c.messages);
      var fs :| Legal(c, fs) && AllSequential(c, fs) && AllSteady(w, fs) && Run(c, fs) == d;
      StalledRun(c, fs);
    }
  }

  /**
   In every reachable state of two connected sockets that have not used up their ACK numbers,
   every accepted byte can still be delivered when nothing was accepted or the blocks accepted
   so far fit between an initial number above 0 and the maximum, and, unless a harmful
   retransmission is about to be sent, only then. Nothing the network lost or repeated, and no
   window, can make the difference.
   */
  lemma CompletableIff(k: Config, es: seq<Event>, w: int)
    requires Sensible(k) && k.sndMaxSize <= SEQ_MOD / 2 && k.rcvMaxSize > 0 && w >= 0
    requires Legal(Start(k), es) && AllUndisturbed(Start(k), es)
    requires Run(Start(k), es).snd.status == S.Connected && Run(Start(k), es).rcv.status == S.Connected
    requires |Run(Start(k), es).acks| <= ACK_MAX
    ensures
      var c := Run(Start(k), es);
      var fits := c.history == [] || (k.isn > 0 && k.isn + |c.history| <= SEQ_MAX);
      && (fits ==> Completable(w, c))
      && (!Harmful(c) ==> (Completable(w, c) <==> fits))
  {
    var c := Run(Start(k), es);
    if k.isn == 0 {
      StalledRun(Start(k), es);
      StalledCompletes(w, c);
    } else {
      StartInv(k);
      RoomRun(Start(k), es);
      ConfirmedWasReleased(k, es);
      RunKeepsIsn(Start(k), es);
      hide Inv, RoomInv, Legal, Run, AllUndisturbed, Completable;
      CompletableFrom(w, c);
    }
  }

  lemma CompletableFrom(w: int, c: Sys)
    requires Inv(c) && RoomInv(c) && c.snd.status == S.Connected && c.rcv.status == S.Connected && w >= 0
    requires c.rcv.lastAck2 <= Released(c) && c.isn <= SEQ_MAX
    ensures c.isn + |c.history| <= SEQ_MAX ==> Completable(w, c)
    ensures !Harmful(c) && Completable(w, c) ==> c.isn + |c.history| <= SEQ_MAX
  {
    hide Inv, RoomInv, Leads, Released;
    if c.isn + |c.history| <= SEQ_MAX {
      var d := CanComplete(w, c);
    }
    if Completable(w, c) && !Harmful(c) {
      var d :| Leads(w, c, d) && d.messages == c.messages && d.delivered == Flatten(c.messages);
      CompletedFits(w, c, d);
    }
  }

  lemma CompletedFits(w: int, c: Sys, d: Sys)
    requires Inv(c) && !Harmful(c) && Leads(w, c, d) && d.messages == c.messages && d.delivered == Flatten(c.messages)
    ensures c.isn + |c.history| <= SEQ_MAX
  {
    var fs :| Legal(c, fs) && AllSequential(c, fs) && AllSteady(w, fs) && Run(c, fs) == d;
    SequentialIsUndisturbed(c, fs);
    RunKeepsInv(c, fs);
    CompleteHadNumbers(d);
  }
}
