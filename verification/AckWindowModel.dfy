/** The window of sent ACKs, src/ack_window.rs, as a value. Times are left out. */
module AckWindowModel {
  import opened OrderedKeys

  datatype AckWin = AckWin(size: nat, keys: seq<nat>, acks: map<nat, nat>)

  /** One stored entry: the ACK number and the sequence number it acknowledged. */
  datatype Entry = Entry(ack: nat, seqNumber: nat)

  function Empty(size: nat): AckWin {
    AckWin(size, [], map[])
  }

  /** `store`; the source panics on a window of size 0. */
  function Store(w: AckWin, seqNumber: nat, ack: nat): AckWin
    requires w.size > 0
  {
    var full := |w.keys| >= w.size;
    var keys := if full then w.keys[1..] else w.keys;
    var acks := if full then w.acks - {w.keys[0]} else w.acks;
    AckWin(w.size, keys + [ack], acks[ack := seqNumber])
  }

  function Get(w: AckWin, ack: nat): Option<nat> {
    if ack in w.acks then Some(w.acks[ack]) else None
  }

  /** The window after a series of stores. */
  function StoreAll(size: nat, log: seq<Entry>): (w: AckWin)
    requires size > 0
    ensures w.size == size
  {
    if log == [] then Empty(size)
    else
      var e := log[|log| - 1];
      Store(StoreAll(size, log[..|log| - 1]), e.seqNumber, e.ack)
  }

  ghost predicate Distinct(log: seq<Entry>) {
    forall i, j :: 0 <= i < j < |log| ==> log[i].ack != log[j].ack
  }

  /** The entries that still fit in the window. */
  function Recent(size: nat, log: seq<Entry>): seq<Entry> {
    if |log| <= size then log else log[|log| - size..]
  }

  /** The window holds exactly the entries `recent`. */
  ghost predicate Holds(w: AckWin, recent: seq<Entry>) {
    && |w.keys| == |recent|
    && (forall i :: 0 <= i < |recent| ==> w.keys[i] == recent[i].ack)
    && (forall i :: 0 <= i < |recent| ==> recent[i].ack in w.acks && w.acks[recent[i].ack] == recent[i].seqNumber)
    && (forall k :: k in w.acks ==> k in w.keys)
  }

  /** With distinct ACK numbers the window answers exactly for the last `size` stores. */
  lemma WindowMeaning(size: nat, log: seq<Entry>)
    requires size > 0 && Distinct(log)
    ensures forall k: nat, n: nat :: Get(StoreAll(size, log), k) == Some(n) <==> Entry(k, n) in Recent(size, log)
  {
    WindowHolds(size, log);
    HoldsGet(StoreAll(size, log), Recent(size, log));
  }

  lemma {:induction false} WindowHolds(size: nat, log: seq<Entry>)
    requires size > 0 && Distinct(log)
    ensures Holds(StoreAll(size, log), Recent(size, log))
  {
    if log != [] {
      var before := log[..|log| - 1];
      WindowHolds(size, before);
      assert before + [log[|log| - 1]] == log;
      StoreHolds(StoreAll(size, before), size, before, log[|log| - 1]);
    }
  }

  lemma StoreHolds(w: AckWin, size: nat, log: seq<Entry>, e: Entry)
    requires size > 0 && w.size == size && Distinct(log + [e]) && Holds(w, Recent(size, log))
    ensures Holds(Store(w, e.seqNumber, e.ack), Recent(size, log + [e]))
  {
    var r := Recent(size, log);
    RecentDistinct(size, log, e);
    if |log| < size {
      assert Recent(size, log + [e]) == r + [e];
      StoreWithRoom(w, r, e);
    } else {
      assert Recent(size, log + [e]) == r[1..] + [e];
      StoreWhenFull(w, r, e);
    }
  }

  lemma RecentDistinct(size: nat, log: seq<Entry>, e: Entry)
    requires Distinct(log + [e])
    ensures Distinct(Recent(size, log) + [e])
  {
    var r := Recent(size, log) + [e];
    assert forall i :: 0 <= i < |r| ==> r[i] == (log + [e])[|log| + 1 - |r| + i];
  }

  lemma StoreWithRoom(w: AckWin, r: seq<Entry>, e: Entry)
    requires |r| < w.size && Holds(w, r) && Distinct(r + [e])
    ensures Holds(Store(w, e.seqNumber, e.ack), r + [e])
  {
    assert forall i :: 0 <= i < |r| ==> (r + [e])[i].ack != (r + [e])[|r|].ack;
  }

  lemma StoreWhenFull(w: AckWin, r: seq<Entry>, e: Entry)
    requires 0 < w.size <= |r| && Holds(w, r) && Distinct(r + [e])
    ensures Holds(Store(w, e.seqNumber, e.ack), r[1..] + [e])
  {
    var c := r + [e];
    assert forall k :: k in w.keys && k != w.keys[0] ==> k in w.keys[1..];
    var w', r' := Store(w, e.seqNumber, e.ack), r[1..] + [e];
    forall i | 0 <= i < |r'|
      ensures r'[i].ack in w'.acks && w'.acks[r'[i].ack] == r'[i].seqNumber
    {
      if i < |r| - 1 {
        assert r'[i] == r[i + 1] == c[i + 1] && c[0] == r[0] && c[|r|] == e;
        assert c[0].ack != c[i + 1].ack && c[i + 1].ack != c[|r|].ack;
      }
    }
  }

  lemma HoldsGet(w: AckWin, recent: seq<Entry>)
    requires Holds(w, recent)
    ensures forall k: nat, n: nat :: Get(w, k) == Some(n) <==> Entry(k, n) in recent
  {
    forall k: nat, n: nat
      ensures Get(w, k) == Some(n) <==> Entry(k, n) in recent
    {
      if Get(w, k) == Some(n) {
        var i :| 0 <= i < |w.keys| && w.keys[i] == k;
        assert recent[i] == Entry(k, n);
      }
    }
  }
}

/** The mutable window of src/ack_window.rs. */
module AckWindow {
  import opened OrderedKeys
  import opened M = AckWindowModel

  class AckWindow {
    const size: nat
    var acks: map<nat, nat>
    var keys: seq<nat>

    ghost function Value(): AckWin
      reads this
    {
      AckWin(size, keys, acks)
    }

    constructor (size: nat)
      ensures Value() == M.Empty(size)
    {
      this.size := size;
      acks, keys := map[], [];
    }

    method Store(seqNumber: nat, ack: nat)
      requires size > 0
      modifies this
      ensures Value() == M.Store(old(Value()), seqNumber, ack)
    {
      if |keys| >= size {
        var oldest := keys[0];
        keys := keys[1..];
        acks := acks - {oldest};
      }
      keys := keys + [ack];
      acks := acks[ack := seqNumber];
    }

    method Get(ack: nat) returns (seqNumber: Option<nat>)
      ensures seqNumber == M.Get(Value(), ack)
    {
      seqNumber := if ack in acks then Some(acks[ack]) else None;
    }
  }
}
