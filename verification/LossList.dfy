/** The mutable loss list of src/loss_list.rs. */
module LossList {
  import opened SeqNumber
  import opened OrderedKeys
  import opened M = LossListModel

  class LossList {
    var sequences: Spans

    ghost predicate Valid()
      reads this
    {
      WellFormed(sequences)
    }

    constructor ()
      ensures Valid() && sequences == map[]
    {
      sequences := map[];
    }

    method Insert(n1: nat, n2: nat)
      requires Valid() && n1 <= SEQ_MAX && n2 <= SEQ_MAX
      modifies this
      ensures Valid() && sequences == M.Insert(old(sequences), n1, n2)
      ensures forall x :: Has(sequences, x) <==>
                          && (Has(old(sequences), x) || InCycle(n1, n2, x))
                          && !(CutsShort(old(sequences), n1, n2) && n2 < x <= old(sequences)[0].end)
    {
      InsertMeaning(sequences, n1, n2);
      if n1 > n2 {
        InsertSpan(n1, SEQ_MAX);
        InsertSpan(0, n2);
      } else {
        InsertSpan(n1, n2);
      }
    }

    method InsertSpan(n1: nat, n2: nat)
      requires n1 <= n2
      modifies this
      ensures sequences == M.InsertSpan(old(sequences), n1, n2)
    {
      var end := n2;
      if n2 > n1 {
        end := Absorb(n1, n2);
      } else {
        assert Without(sequences, []) == sequences;
      }
      var floor := FloorKey(sequences.Keys, n1);
      if floor.Some? && sequences[floor.value].end >= Add(n1, -1) {
        var s := sequences[floor.value];
        sequences := sequences[floor.value := Span(s.start, if s.end > end then s.end else end)];
        return;
      }
      sequences := sequences[n1 := Span(n1, end)];
    }

    /** The two loops of `insert`: collect the spans starting inside the range, then drop them. */
    method Absorb(n1: nat, n2: nat) returns (end: nat)
      modifies this
      ensures
        var range := KeysIn(old(sequences).Keys, n1 + 1, n2 + 1);
        && sequences == Without(old(sequences), range)
        && end == MaxEnd(old(sequences), range, n2)
    {
      var keysToRemove;
      keysToRemove, end := Covered(sequences, KeysIn(sequences.Keys, n1 + 1, n2 + 1), n2);
      for i := 0 to |keysToRemove|
        invariant sequences == Without(old(sequences), keysToRemove[..i])
      {
        sequences := sequences - {keysToRemove[i]};
      }
      assert keysToRemove[..|keysToRemove|] == keysToRemove;
    }

    /** The keys in the range and the greatest end among them and `n2`. */
    static method Covered(m: Spans, range: seq<nat>, n2: nat) returns (keysToRemove: seq<nat>, end: nat)
      ensures keysToRemove == range && end == MaxEnd(m, range, n2)
    {
      keysToRemove, end := [], n2;
      for i := 0 to |range|
        invariant keysToRemove == range[..i]
        invariant MaxEnd(m, range, n2) == MaxEnd(m, range[i..], end)
      {
        keysToRemove := keysToRemove + [range[i]];
        if range[i] in m && m[range[i]].end > end {
          end := m[range[i]].end;
        }
      }
    }

    method Remove(num: nat)
      requires Valid() && num <= SEQ_MAX
      modifies this
      ensures Valid() && sequences == M.Remove(old(sequences), num)
      ensures forall x :: Has(sequences, x) <==> Has(old(sequences), x) && x != num
    {
      RemoveMeaning(sequences, num);
      var floor := FloorKey(sequences.Keys, num);
      if floor.Some? {
        var s := sequences[floor.value];
        if s.start == num {
          sequences := sequences - {floor.value};
          if s.end > num {
            sequences := sequences[Add(num, 1) := Span(Add(num, 1), s.end)];
          }
        } else if s.end >= num {
          sequences := sequences[floor.value := Span(s.start, Add(num, -1))];
          if s.end > num {
            sequences := sequences[Add(num, 1) := Span(Add(num, 1), s.end)];
          }
        }
      }
    }

    method RemoveAll(n1: nat, n2: nat)
      requires Valid() && n1 <= SEQ_MAX && n2 <= SEQ_MAX
      modifies this
      ensures Valid() && sequences == M.RemoveAll(old(sequences), n1, n2)
      ensures forall x :: Has(sequences, x) <==> Has(old(sequences), x) && !InCycle(n1, n2, x)
      decreases n1 > n2
    {
      RemoveAllMeaning(sequences, n1, n2);
      if n1 <= n2 {
        var i: int := n2;
        while i >= n1
          invariant n1 - 1 <= i <= n2
          invariant Valid()
          invariant RemoveDown(sequences, n1, i) == RemoveDown(old(sequences), n1, n2)
        {
          Remove(i);
          i := i - 1;
        }
      } else {
        RemoveDownMeaning(sequences, n1, SEQ_MAX);
        RemoveAll(n1, SEQ_MAX);
        RemoveAll(0, n2);
      }
    }

    method IsEmpty() returns (empty: bool)
      requires Valid()
      ensures empty <==> forall x :: !Has(sequences, x)
      ensures empty <==> sequences == map[]
    {
      PeekMeaning(sequences, 0);
      empty := |sequences| == 0;
    }

    method PopAfter(after: nat) returns (x: Option<nat>)
      requires Valid() && after <= SEQ_MAX
      modifies this
      ensures Valid() && (x, sequences) == M.PopAfter(old(sequences), after)
      ensures x == M.PeekAfter(old(sequences), after)
      ensures forall y :: Has(sequences, y) <==> Has(old(sequences), y) && x != Some(y)
    {
      PopMeaning(sequences, after);
      PeekMeaning(sequences, after);
      if |sequences| == 0 {
        return None;
      }
      var floor := FloorKey(sequences.Keys, after);
      if floor.Some? && sequences[floor.value].end >= after {
        Remove(after);
        return Some(after);
      }
      var next := CeilKey(sequences.Keys, after, SEQ_MAX);
      if next.Some? {
        var start := sequences[next.value].start;
        Remove(start);
        return Some(start);
      }
      var first := CeilKey(sequences.Keys, 0, SEQ_MAX);
      if first.Some? {
        var start := sequences[first.value].start;
        Remove(start);
        return Some(start);
      }
      return None;
    }

    method PeekAfter(after: nat) returns (x: Option<nat>)
      requires Valid() && after <= SEQ_MAX
      ensures x == M.PeekAfter(sequences, after)
      ensures x.None? <==> forall y :: !Has(sequences, y)
      ensures x.Some? ==> x.value <= SEQ_MAX && Has(sequences, x.value)
      ensures x.Some? ==> forall y :: 0 <= y <= SEQ_MAX && Has(sequences, y) ==>
                                      Ahead(after, x.value) <= Ahead(after, y)
    {
      PeekMeaning(sequences, after);
      if |sequences| == 0 {
        return None;
      }
      var floor := FloorKey(sequences.Keys, after);
      if floor.Some? && sequences[floor.value].end >= after {
        return Some(after);
      }
      var next := CeilKey(sequences.Keys, after, SEQ_MAX);
      if next.Some? {
        return Some(sequences[next.value].start);
      }
      var first := CeilKey(sequences.Keys, 0, SEQ_MAX);
      if first.Some? {
        return Some(sequences[first.value].start);
      }
      return None;
    }
  }
}
