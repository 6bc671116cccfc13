/**
 The loss list of src/loss_list.rs: an ordered map from the first number of a lost range to
 that range. The functions work on the map itself, branch for branch as the source does; the
 lemmas say what each does to the set of numbers the map stands for. The class `LossList`
 runs the source's loops and is proved to compute the functions.
 */
module LossListModel {
  import opened SeqNumber
  import opened OrderedKeys

  datatype Span = Span(start: nat, end: nat)
  type Spans = map<nat, Span>

  /** Keys equal starts, starts do not exceed ends, and spans are disjoint. */
  ghost predicate WellFormed(m: Spans) {
    && (forall k :: k in m ==> m[k].start == k && k <= m[k].end <= SEQ_MAX)
    && (forall j, k :: j in m && k in m && j < k ==> m[j].end < k)
  }

  /** The number `x` is recorded as lost. */
  ghost predicate Has(m: Spans, x: int) {
    exists k :: k in m && k <= x <= m[k].end
  }

  ghost function Members(m: Spans): (s: set<nat>) {
    set x: nat | 0 <= x <= SEQ_MAX && Has(m, x)
  }

  /** Membership in the cyclic interval from `n1` to `n2`. */
  ghost predicate InCycle(n1: nat, n2: nat, x: int) {
    if n1 <= n2 then n1 <= x <= n2 else n1 <= x <= SEQ_MAX || 0 <= x <= n2
  }

  // ---------------------------------------------------------------- insert

  function MaxEnd(m: Spans, keys: seq<nat>, end: nat): nat {
    if keys == [] then end
    else
      var above := keys[0] in m && m[keys[0]].end > end;
      MaxEnd(m, keys[1..], if above then m[keys[0]].end else end)
  }

  function Without(m: Spans, keys: seq<nat>): Spans {
    m - (set k | k in keys)
  }

  /** Extends the span at or before `n1` when it reaches `n1 - 1`, else adds a span. */
  function Place(rest: Spans, n1: nat, end: nat): Spans {
    var floor := FloorKey(rest.Keys, n1);
    if floor.Some? && rest[floor.value].end >= Add(n1, -1) then
      var s := rest[floor.value];
      rest[floor.value := Span(s.start, if s.end > end then s.end else end)]
    else
      rest[n1 := Span(n1, end)]
  }

  /** `insert` for a range that does not wrap: absorbs the spans that start inside it. */
  function InsertSpan(m: Spans, n1: nat, n2: nat): Spans {
    var covered := KeysIn(m.Keys, n1 + 1, n2 + 1);
    Place(Without(m, covered), n1, MaxEnd(m, covered, n2))
  }

  function Insert(m: Spans, n1: nat, n2: nat): Spans {
    if n1 > n2 then InsertSpan(InsertSpan(m, n1, SEQ_MAX), 0, n2) else InsertSpan(m, n1, n2)
  }

  /**
   The numbers an insertion from 0 wipes out. The source compares the end of the span found
   with `n1 - 1`, which for `n1 = 0` is the maximum, so an existing span that starts at 0 is
   replaced instead of extended.
   */
  ghost predicate Overwritten(m: Spans, n1: nat, n2: nat, x: int) {
    n1 == 0 && 0 in m && m[0].end < SEQ_MAX && n2 < x <= m[0].end
  }

  lemma {:induction false} MaxEndBounds(m: Spans, keys: seq<nat>, end: nat)
    requires forall k :: k in keys ==> k in m
    ensures MaxEnd(m, keys, end) >= end
    ensures forall k :: k in keys ==> m[k].end <= MaxEnd(m, keys, end)
    ensures MaxEnd(m, keys, end) == end || exists k :: k in keys && m[k].end == MaxEnd(m, keys, end)
  {
    if keys != [] {
      var e := m[keys[0]].end;
      MaxEndBounds(m, keys[1..], if e > end then e else end);
      assert forall k :: k in keys ==> k == keys[0] || k in keys[1..];
      assert keys[0] in keys;
      assert forall k :: k in keys[1..] ==> k in keys;
    }
  }

  /** What an insertion of `[n1, n2]` leaves in place, and the end it collects. */
  ghost predicate Split(m: Spans, n1: nat, n2: nat, rest: Spans, end: nat) {
    && (forall k :: k in rest <==> k in m && (k <= n1 || n2 < k))
    && (forall k :: k in rest ==> rest[k] == m[k])
    && (forall k :: k in rest && n2 < k ==> end < k)
    && (forall k :: k in m && n1 < k <= n2 ==> m[k].end <= end)
    && (end == n2 || exists k :: k in m && n1 < k <= n2 && m[k].end == end)
    && n2 <= end <= SEQ_MAX
  }

  lemma SplitOf(m: Spans, n1: nat, n2: nat)
    requires WellFormed(m) && n1 <= n2 <= SEQ_MAX
    ensures
      var covered := KeysIn(m.Keys, n1 + 1, n2 + 1);
      Split(m, n1, n2, Without(m, covered), MaxEnd(m, covered, n2))
  {
    hide KeysIn, MaxEnd;
    var covered := KeysIn(m.Keys, n1 + 1, n2 + 1);
    KeysInMeaning(m.Keys, n1 + 1, n2 + 1);
    MaxEndBounds(m, covered, n2);
  }

  lemma InsertSpanMeaning(m: Spans, n1: nat, n2: nat)
    requires WellFormed(m) && n1 <= n2 <= SEQ_MAX
    ensures WellFormed(InsertSpan(m, n1, n2))
    ensures forall x :: Has(InsertSpan(m, n1, n2), x)
                  <==> (Has(m, x) || n1 <= x <= n2) && !Overwritten(m, n1, n2, x)
  {
    hide KeysIn, MaxEnd, Without, Split, WellFormed, Has, Overwritten, Place;
    var covered := KeysIn(m.Keys, n1 + 1, n2 + 1);
    SplitOf(m, n1, n2);
    PlaceMeaning(m, n1, n2, Without(m, covered), MaxEnd(m, covered, n2));
  }

  lemma PlaceMeaning(m: Spans, n1: nat, n2: nat, rest: Spans, end: nat)
    requires WellFormed(m) && n1 <= n2 <= SEQ_MAX && Split(m, n1, n2, rest, end)
    ensures WellFormed(Place(rest, n1, end))
    ensures forall x :: Has(Place(rest, n1, end), x)
                  <==> (Has(m, x) || n1 <= x <= n2) && !Overwritten(m, n1, n2, x)
  {
    hide Has, Overwritten, WellFormed, Split, Splice, Place;
    var key, e := PlaceIsSplice(m, n1, n2, rest, end);
    SpliceMeaning(m, n1, n2, rest, end, key, e);
  }

  lemma PlaceIsSplice(m: Spans, n1: nat, n2: nat, rest: Spans, end: nat) returns (key: nat, e: nat)
    requires WellFormed(m) && n1 <= n2 <= SEQ_MAX && Split(m, n1, n2, rest, end)
    ensures Splice(m, n1, n2, rest, end, key, e) && Place(rest, n1, end) == rest[key := Span(key, e)]
  {
    hide FloorKey;
    var floor := FloorKey(rest.Keys, n1);
    FloorMeaning(rest.Keys, n1);
    if floor.Some? && rest[floor.value].end >= Add(n1, -1) {
      key := floor.value;
      e := if rest[key].end > end then rest[key].end else end;
      assert rest[key] == m[key];
    } else {
      key, e := n1, end;
      assert floor.Some? ==> rest[floor.value] == m[floor.value];
    }
  }

  lemma SpliceMeaning(m: Spans, n1: nat, n2: nat, rest: Spans, end: nat, key: nat, e: nat)
    requires Splice(m, n1, n2, rest, end, key, e)
    ensures WellFormed(rest[key := Span(key, e)])
    ensures forall x :: Has(rest[key := Span(key, e)], x)
                  <==> (Has(m, x) || n1 <= x <= n2) && !Overwritten(m, n1, n2, x)
  {
    SpliceWellFormed(m, n1, n2, rest, end, key, e);
    forall x
      ensures Has(rest[key := Span(key, e)], x)
        <==> (Has(m, x) || n1 <= x <= n2) && !Overwritten(m, n1, n2, x)
    {
      SpliceHas(m, n1, n2, rest, end, key, e, x);
    }
  }

  /** The span `[key, e]` that replaces what `[n1, n2]` touches. */
  ghost predicate Splice(m: Spans, n1: nat, n2: nat, rest: Spans, end: nat, key: nat, e: nat) {
    && WellFormed(m) && n1 <= n2 <= SEQ_MAX && Split(m, n1, n2, rest, end)
    && ((key == n1 && e == end
         && (forall k :: k in rest && k <= n1 ==> rest[k].end < Add(n1, -1)))
        || (key in rest && key <= n1 && rest[key].end >= Add(n1, -1)
            && e == (if rest[key].end > end then rest[key].end else end)
            && (forall k :: k in rest && k <= n1 ==> k <= key)))
  }

  lemma SpliceWellFormed(m: Spans, n1: nat, n2: nat, rest: Spans, end: nat, key: nat, e: nat)
    requires Splice(m, n1, n2, rest, end, key, e)
    ensures WellFormed(rest[key := Span(key, e)])
  {
  }

  lemma SpliceInside(m: Spans, n1: nat, n2: nat, rest: Spans, end: nat, key: nat, e: nat, x: int)
    requires Splice(m, n1, n2, rest, end, key, e) && key <= x <= e
    ensures (Has(m, x) || n1 <= x <= n2) && !Overwritten(m, n1, n2, x)
  {
    if key in rest && rest[key].end >= x && rest[key].end >= Add(n1, -1) {
      assert key in m && m[key].start <= x;
    } else if n2 < x {
      var j :| j in m && n1 < j <= n2 && m[j].end == end;
      assert j <= x <= m[j].end;
      assert 0 in m ==> m[0].end < j;
    }
  }

  lemma SpliceOutside(m: Spans, n1: nat, n2: nat, rest: Spans, end: nat, key: nat, e: nat, k: nat, x: int)
    requires Splice(m, n1, n2, rest, end, key, e) && !(key <= x <= e)
    requires k in m && k <= x <= m[k].end && !Overwritten(m, n1, n2, x)
    ensures k in rest && k != key
  {
  }

  lemma SpliceHas(m: Spans, n1: nat, n2: nat, rest: Spans, end: nat, key: nat, e: nat, x: int)
    requires Splice(m, n1, n2, rest, end, key, e)
    ensures Has(rest[key := Span(key, e)], x)
      <==> (Has(m, x) || n1 <= x <= n2) && !Overwritten(m, n1, n2, x)
  {
    UpdateHas(rest, key, e, x);
    if key <= x <= e {
      SpliceInside(m, n1, n2, rest, end, key, e, x);
    } else {
      SpliceFar(m, n1, n2, rest, end, key, e, x);
    }
  }

  lemma UpdateHas(rest: Spans, key: nat, e: nat, x: int)
    ensures Has(rest[key := Span(key, e)], x) <==> key <= x <= e || Has(rest - {key}, x)
  {
    var r := rest[key := Span(key, e)];
    assert key in r;
    if Has(rest - {key}, x) {
      var k :| k in rest - {key} && k <= x <= rest[k].end;
      assert k in r;
    }
    if Has(r, x) {
      var k :| k in r && k <= x <= r[k].end;
      assert k != key ==> k in rest - {key};
    }
  }

  lemma SpliceFar(m: Spans, n1: nat, n2: nat, rest: Spans, end: nat, key: nat, e: nat, x: int)
    requires Splice(m, n1, n2, rest, end, key, e) && !(key <= x <= e)
    ensures Has(rest - {key}, x) <==> (Has(m, x) || n1 <= x <= n2) && !Overwritten(m, n1, n2, x)
  {
    if Has(rest - {key}, x) {
      var k :| k in rest - {key} && k <= x <= rest[k].end;
      SpliceKept(m, n1, n2, rest, end, key, e, k, x);
    }
    if Has(m, x) && !Overwritten(m, n1, n2, x) {
      var k :| k in m && k <= x <= m[k].end;
      SpliceOutside(m, n1, n2, rest, end, key, e, k, x);
      assert k in rest - {key};
    }
  }

  lemma SpliceKept(m: Spans, n1: nat, n2: nat, rest: Spans, end: nat, key: nat, e: nat, k: nat, x: int)
    requires Splice(m, n1, n2, rest, end, key, e) && !(key <= x <= e)
    requires k in rest && k != key && k <= x <= rest[k].end
    ensures Has(m, x) && !Overwritten(m, n1, n2, x)
  {
    assert k in m && m[k] == rest[k];
  }

  /** The span starting at 0 that an insertion of `[n1, n2]` cuts short. */
  predicate CutsShort(m: Spans, n1: nat, n2: nat) {
    && 0 in m && n2 < m[0].end
    && (if n1 > n2 then m[0].end < n1 - 1 || n1 in m else n1 == 0 && m[0].end < SEQ_MAX)
  }

  /** `insert` is union with the cyclic interval, less the tail of a span cut short. */
  lemma InsertMeaning(m: Spans, n1: nat, n2: nat)
    requires WellFormed(m) && n1 <= SEQ_MAX && n2 <= SEQ_MAX
    ensures WellFormed(Insert(m, n1, n2))
    ensures forall x :: Has(Insert(m, n1, n2), x) <==>
                        && (Has(m, x) || InCycle(n1, n2, x))
                        && !(CutsShort(m, n1, n2) && n2 < x <= m[0].end)
  {
    if n1 > n2 {
      var w := InsertSpan(m, n1, SEQ_MAX);
      InsertSpanMeaning(m, n1, SEQ_MAX);
      InsertSpanMeaning(w, 0, n2);
      ZeroAfterTail(m, n1);
    } else {
      InsertSpanMeaning(m, n1, n2);
    }
  }

  lemma ZeroAfterTail(m: Spans, n1: nat)
    requires WellFormed(m) && 0 < n1 <= SEQ_MAX
    ensures
      var w := InsertSpan(m, n1, SEQ_MAX);
      && (0 in w <==> 0 in m)
      && (0 in m ==> w[0].end == if m[0].end >= n1 - 1 && n1 !in m then SEQ_MAX else m[0].end)
  {
    var covered := KeysIn(m.Keys, n1 + 1, SEQ_MAX + 1);
    SplitOf(m, n1, SEQ_MAX);
    PlaceAfterZero(m, n1, Without(m, covered), MaxEnd(m, covered, SEQ_MAX));
  }

  lemma PlaceAfterZero(m: Spans, n1: nat, rest: Spans, end: nat)
    requires WellFormed(m) && 0 < n1 <= SEQ_MAX && Split(m, n1, SEQ_MAX, rest, end)
    ensures
      var w := Place(rest, n1, end);
      && (0 in w <==> 0 in m)
      && (0 in m ==> w[0].end == if m[0].end >= n1 - 1 && n1 !in m then SEQ_MAX else m[0].end)
  {
    if 0 in m {
      FloorMeaning(rest.Keys, n1);
      ZeroKept(m, n1, rest, end, FloorKey(rest.Keys, n1).value);
    }
  }

  lemma ZeroKept(m: Spans, n1: nat, rest: Spans, end: nat, floor: nat)
    requires WellFormed(m) && 0 < n1 <= SEQ_MAX && Split(m, n1, SEQ_MAX, rest, end)
    requires 0 in m && floor in rest && floor <= n1 && forall k :: k in rest && k <= n1 ==> k <= floor
    ensures end == SEQ_MAX && 0 in rest && rest[0] == m[0] && rest[floor].start == floor
    ensures floor == 0 && rest[0].end >= n1 - 1 <==> m[0].end >= n1 - 1 && n1 !in m
    ensures rest[floor].end <= SEQ_MAX
  {
    if floor != 0 {
      assert m[0].end < floor;
    }
    if n1 in m {
      assert n1 in rest;
    }
  }

  /** `insert` is exactly union with the cyclic interval unless it cuts a span at 0 short. */
  lemma InsertIsUnionIff(m: Spans, n1: nat, n2: nat)
    requires WellFormed(m) && n1 <= SEQ_MAX && n2 <= SEQ_MAX
    ensures (forall x :: Has(Insert(m, n1, n2), x) <==> Has(m, x) || InCycle(n1, n2, x))
            <==> !CutsShort(m, n1, n2)
  {
    InsertMeaning(m, n1, n2);
    if CutsShort(m, n1, n2) {
      var x := m[0].end;
      assert Has(m, x);
      assert !Has(Insert(m, n1, n2), x);
    }
  }

  /** The boundary at work: inserting 0 into a list that holds 0 to 5 leaves only 0. */
  lemma InsertAtZeroForgets()
    ensures var m: Spans := map[0 := Span(0, 5)];
      WellFormed(m) && Has(m, 3) && !Has(Insert(m, 0, 0), 3)
  {
    var m: Spans := map[0 := Span(0, 5)];
    assert 0 in m;
    assert Has(m, 3);
    InsertMeaning(m, 0, 0);
  }

  // ---------------------------------------------------------------- remove

  function Remove(m: Spans, num: nat): Spans {
    var floor := FloorKey(m.Keys, num);
    if floor.None? then m
    else
      var s := m[floor.value];
      if s.start == num then
        var rest := m - {floor.value};
        if s.end > num then rest[Add(num, 1) := Span(Add(num, 1), s.end)] else rest
      else if s.end >= num then
        var cut := m[floor.value := Span(s.start, Add(num, -1))];
        if s.end > num then cut[Add(num, 1) := Span(Add(num, 1), s.end)] else cut
      else m
  }

  /** The loop of `remove_all`, from the top of the range down. */
  function RemoveDown(m: Spans, n1: nat, n2: int): Spans
    decreases n2 - n1
  {
    if n2 < n1 then m else RemoveDown(Remove(m, n2), n1, n2 - 1)
  }

  function RemoveAll(m: Spans, n1: nat, n2: nat): Spans {
    if n1 <= n2 then RemoveDown(m, n1, n2) else RemoveDown(RemoveDown(m, n1, SEQ_MAX), 0, n2)
  }

  lemma RemoveMeaning(m: Spans, num: nat)
    requires WellFormed(m) && num <= SEQ_MAX
    ensures WellFormed(Remove(m, num))
    ensures forall x :: Has(Remove(m, num), x) <==> Has(m, x) && x != num
  {
    RemoveWellFormed(m, num);
    forall x
      ensures Has(Remove(m, num), x) <==> Has(m, x) && x != num
    {
      RemoveHas(m, num, x);
    }
  }

  lemma RemoveWellFormed(m: Spans, num: nat)
    requires WellFormed(m) && num <= SEQ_MAX
    ensures WellFormed(Remove(m, num))
  {
    hide WellFormed;
    RemoveShape(m, num);
    var floor := FloorKey(m.Keys, num);
    hide Remove;
    if floor.Some? && num <= m[floor.value].end {
      var f, e := floor.value, m[floor.value].end;
      CutWellFormed(m, f, num);
      if e > num {
        AddWellFormed(Cut(m, f, num), num + 1, e);
      }
    }
  }

  /** The list with the span at `f` cut off below `num`. */
  function Cut(m: Spans, f: nat, num: nat): Spans {
    if f >= num then m - {f} else m[f := Span(f, num - 1)]
  }

  lemma RemoveShape(m: Spans, num: nat)
    requires WellFormed(m) && num <= SEQ_MAX
    ensures
      var floor := FloorKey(m.Keys, num);
      if floor.Some? && num <= m[floor.value].end then
        var f, e := floor.value, m[floor.value].end;
        Remove(m, num) == if e > num then Cut(m, f, num)[num + 1 := Span(num + 1, e)] else Cut(m, f, num)
      else Remove(m, num) == m
  {
  }

  lemma CutWellFormed(m: Spans, f: nat, num: nat)
    requires WellFormed(m) && f in m && f <= num <= m[f].end
    ensures
      var low := Cut(m, f, num);
      && WellFormed(low) && m[f].end <= SEQ_MAX
      && forall k :: k in low ==> low[k].end < num + 1 || m[f].end < k
  {
  }

  lemma AddWellFormed(low: Spans, key: nat, e: nat)
    requires WellFormed(low) && key <= e <= SEQ_MAX
    requires forall k :: k in low ==> low[k].end < key || e < k
    ensures WellFormed(low[key := Span(key, e)])
  {
  }

  lemma RemoveHas(m: Spans, num: nat, x: int)
    requires WellFormed(m) && num <= SEQ_MAX
    ensures Has(Remove(m, num), x) <==> Has(m, x) && x != num
  {
    hide FloorKey, Remove;
    RemoveShape(m, num);
    FloorMeaning(m.Keys, num);
    var floor := FloorKey(m.Keys, num);
    if floor.Some? && num <= m[floor.value].end {
      var f, e := floor.value, m[floor.value].end;
      var low := Cut(m, f, num);
      CutHas(m, f, num, x);
      if e > num {
        UpdateHas(low, num + 1, e, x);
        assert num + 1 !in low;
        assert low - {num + 1} == low;
      }
    } else {
      assert forall k :: k in m ==> num < k || m[k].end < num;
    }
  }

  lemma CutHas(m: Spans, f: nat, num: nat, x: int)
    requires WellFormed(m) && f in m && f <= num <= m[f].end
    ensures Has(Cut(m, f, num), x) || num < x <= m[f].end <==> Has(m, x) && x != num
  {
    if f != num {
      UpdateHas(m, f, num - 1, x);
    }
    if f <= x <= m[f].end {
      assert Has(m, x);
      assert !Has(m - {f}, x);
    } else if Has(m, x) {
      var k :| k in m && k <= x <= m[k].end;
      assert k in m - {f};
    }
    if Has(m - {f}, x) {
      var k :| k in m - {f} && k <= x <= m[k].end;
      assert k in m;
    }
  }

  lemma {:induction false} RemoveDownMeaning(m: Spans, n1: nat, n2: int)
    requires WellFormed(m) && n2 <= SEQ_MAX
    ensures WellFormed(RemoveDown(m, n1, n2))
    ensures forall x :: Has(RemoveDown(m, n1, n2), x) <==> Has(m, x) && !(n1 <= x <= n2)
    decreases n2 - n1
  {
    if n2 >= n1 {
      RemoveMeaning(m, n2);
      RemoveDownMeaning(Remove(m, n2), n1, n2 - 1);
    }
  }

  /** `remove_all` is difference with the cyclic interval. */
  lemma RemoveAllMeaning(m: Spans, n1: nat, n2: nat)
    requires WellFormed(m) && n1 <= SEQ_MAX && n2 <= SEQ_MAX
    ensures WellFormed(RemoveAll(m, n1, n2))
    ensures forall x :: Has(RemoveAll(m, n1, n2), x) <==> Has(m, x) && !InCycle(n1, n2, x)
  {
    if n1 <= n2 {
      RemoveDownMeaning(m, n1, n2);
    } else {
      RemoveDownMeaning(m, n1, SEQ_MAX);
      RemoveDownMeaning(RemoveDown(m, n1, SEQ_MAX), 0, n2);
    }
  }

  // ---------------------------------------------------------------- peek and pop

  function PeekAfter(m: Spans, after: nat): Option<nat> {
    var floor := FloorKey(m.Keys, after);
    if floor.Some? && m[floor.value].end >= after then Some(after)
    else
      var next := CeilKey(m.Keys, after, SEQ_MAX);
      if next.Some? then Some(m[next.value].start)
      else
        var first := CeilKey(m.Keys, 0, SEQ_MAX);
        if first.Some? then Some(m[first.value].start) else None
  }

  function PopAfter(m: Spans, after: nat): (Option<nat>, Spans) {
    var x := PeekAfter(m, after);
    if x.Some? then (x, Remove(m, x.value)) else (x, m)
  }

  /** `peek_after` finds the recorded number that comes first going upward and around. */
  lemma PeekMeaning(m: Spans, after: nat)
    requires WellFormed(m) && after <= SEQ_MAX
    ensures PeekAfter(m, after).None? <==> forall x :: !Has(m, x)
    ensures PeekAfter(m, after).None? <==> m == map[]
    ensures PeekAfter(m, after).Some? ==>
      var x := PeekAfter(m, after).value;
      && x <= SEQ_MAX && Has(m, x)
      && forall y :: 0 <= y <= SEQ_MAX && Has(m, y) ==> Ahead(after, x) <= Ahead(after, y)
  {
    if PeekAfter(m, after).None? {
      PeekNone(m, after);
    } else {
      PeekSome(m, after);
    }
  }

  lemma PeekNone(m: Spans, after: nat)
    requires WellFormed(m) && PeekAfter(m, after).None?
    ensures m == map[] && forall x :: !Has(m, x)
  {
    assert forall k :: k in m ==> k <= SEQ_MAX && 0 <= k;
    CeilMeaning(m.Keys, 0, SEQ_MAX);
    assert forall k :: k !in m;
  }

  lemma PeekSome(m: Spans, after: nat)
    requires WellFormed(m) && after <= SEQ_MAX && PeekAfter(m, after).Some?
    ensures m != map[]
    ensures
      var x := PeekAfter(m, after).value;
      && x <= SEQ_MAX && Has(m, x)
      && forall y :: 0 <= y <= SEQ_MAX && Has(m, y) ==> Ahead(after, x) <= Ahead(after, y)
  {
    hide FloorKey, CeilKey, WellFormed;
    var floor := FloorKey(m.Keys, after);
    if floor.Some? && m[floor.value].end >= after {
      assert floor.value in m && Has(m, after);
      assert PeekAfter(m, after) == Some(after);
      hide PeekAfter, Has;
    } else {
      PeekNext(m, after);
    }
  }

  lemma NothingHere(m: Spans, after: nat)
    requires WellFormed(m)
    requires
      var floor := FloorKey(m.Keys, after);
      floor.Some? ==> floor.value in m && m[floor.value].end < after
    ensures forall j :: j in m ==> after < j || m[j].end < after
  {
    hide FloorKey;
    FloorMeaning(m.Keys, after);
  }

  /** The key at which the answer starts is the least one above `after`, or the least of all. */
  lemma PeekKey(m: Spans, after: nat) returns (k: nat)
    requires WellFormed(m) && after <= SEQ_MAX && PeekAfter(m, after).Some?
    requires
      var floor := FloorKey(m.Keys, after);
      floor.Some? ==> floor.value in m && m[floor.value].end < after
    ensures k in m && k <= SEQ_MAX && Has(m, k) && PeekAfter(m, after) == Some(k)
    ensures forall j :: j in m && after <= j ==> after <= k <= j
    ensures forall j :: j in m && k < after ==> k <= j < after
  {
    hide FloorKey, CeilKey;
    var next := CeilKey(m.Keys, after, SEQ_MAX);
    var first := CeilKey(m.Keys, 0, SEQ_MAX);
    k := if next.Some? then next.value else first.value;
    CeilMeaning(m.Keys, after, SEQ_MAX);
    CeilMeaning(m.Keys, 0, SEQ_MAX);
    assert k in m && m[k].start == k && k <= m[k].end;
    assert forall j :: j in m ==> j <= SEQ_MAX;
    hide WellFormed;
  }

  /** No span covers `after`: the next one starts at the key found. */
  lemma PeekNext(m: Spans, after: nat)
    requires WellFormed(m) && after <= SEQ_MAX && PeekAfter(m, after).Some?
    requires
      var floor := FloorKey(m.Keys, after);
      floor.Some? ==> floor.value in m && m[floor.value].end < after
    ensures m != map[]
    ensures
      var x := PeekAfter(m, after).value;
      && x <= SEQ_MAX && Has(m, x)
      && forall y :: 0 <= y <= SEQ_MAX && Has(m, y) ==> Ahead(after, x) <= Ahead(after, y)
  {
    hide FloorKey, CeilKey;
    var k := PeekKey(m, after);
    NothingHere(m, after);
    hide PeekAfter, WellFormed;
    forall y | 0 <= y <= SEQ_MAX && Has(m, y)
      ensures Ahead(after, k) <= Ahead(after, y)
    {
      hide Ahead;
      PeekOrder(m, after, k, y);
    }
  }

  lemma PeekOrder(m: Spans, after: nat, k: nat, y: nat)
    requires after <= SEQ_MAX && k <= SEQ_MAX && y <= SEQ_MAX && Has(m, y)
    requires forall j :: j in m && after <= j ==> after <= k <= j
    requires forall j :: j in m && k < after ==> k <= j < after
    requires forall j :: j in m ==> after < j || m[j].end < after
    ensures Ahead(after, k) <= Ahead(after, y)
  {
    var j :| j in m && j <= y <= m[j].end;
  }

  /** `pop_after` returns what `peek_after` would and removes only that. */
  lemma PopMeaning(m: Spans, after: nat)
    requires WellFormed(m) && after <= SEQ_MAX
    ensures PopAfter(m, after).0 == PeekAfter(m, after)
    ensures WellFormed(PopAfter(m, after).1)
    ensures forall x :: Has(PopAfter(m, after).1, x) <==> Has(m, x) && PopAfter(m, after).0 != Some(x)
  {
    PeekMeaning(m, after);
    if PeekAfter(m, after).Some? {
      RemoveMeaning(m, PeekAfter(m, after).value);
    }
  }

  lemma PopShrinks(m: Spans, after: nat)
    requires WellFormed(m) && after <= SEQ_MAX && PeekAfter(m, after).Some?
    ensures
      var x := PeekAfter(m, after).value;
      && WellFormed(PopAfter(m, after).1)
      && Members(PopAfter(m, after).1) == Members(m) - {x}
      && FirstIn(Members(m), x, after)
  {
    PeekMeaning(m, after);
    PopMeaning(m, after);
  }

  /** `x` is the member of `s` reached first from `after`. */
  ghost predicate FirstIn(s: set<nat>, x: nat, after: nat)
    requires after <= SEQ_MAX
  {
    x in s && forall y :: y in s ==> x <= SEQ_MAX && y <= SEQ_MAX && Ahead(after, x) <= Ahead(after, y)
  }

  /** The numbers returned by popping after a fixed number until the list is empty. */
  ghost function Drain(m: Spans, after: nat): seq<nat>
    requires WellFormed(m) && after <= SEQ_MAX
    decreases |Members(m)|
  {
    var x := PeekAfter(m, after);
    if x.None? then []
    else
      PopShrinks(m, after);
      [x.value] + Drain(PopAfter(m, after).1, after)
  }

  /** Repeated pops list the whole set, each number once, in cyclic order. */
  lemma {:induction false} DrainMeaning(m: Spans, after: nat)
    requires WellFormed(m) && after <= SEQ_MAX
    ensures Lists(Drain(m, after), Members(m), after)
    ensures |Drain(m, after)| == |Members(m)|
    decreases |Members(m)|
  {
    if PeekAfter(m, after).None? {
      PeekNone(m, after);
      assert Members(m) == {};
    } else {
      PopShrinks(m, after);
      DrainMeaning(PopAfter(m, after).1, after);
      ConsLists(PeekAfter(m, after).value, Drain(PopAfter(m, after).1, after), Members(m), after);
    }
  }

  /** `d` lists exactly `s`, going upward and around from `after`. */
  ghost predicate Lists(d: seq<nat>, s: set<nat>, after: nat)
    requires after <= SEQ_MAX
  {
    && (forall x :: x in d <==> x in s)
    && (forall i :: 0 <= i < |d| ==> d[i] <= SEQ_MAX)
    && (forall i, j :: 0 <= i < j < |d| ==> Ahead(after, d[i]) < Ahead(after, d[j]))
  }

  lemma ConsLists(x: nat, d: seq<nat>, s: set<nat>, after: nat)
    requires after <= SEQ_MAX && FirstIn(s, x, after) && Lists(d, s - {x}, after)
    ensures Lists([x] + d, s, after)
  {
    var c := [x] + d;
    assert forall i :: 0 < i < |c| ==> c[i] == d[i - 1] && c[i] in d;
  }

  lemma HasBounds(m: Spans, x: int)
    requires WellFormed(m) && Has(m, x)
    ensures 0 <= x <= SEQ_MAX && m != map[]
  {
  }
}
