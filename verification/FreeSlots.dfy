/** The list of free slots of one handyman, and what confirming a window does to it
    (apply_confirm_to_slots). The loop appends the pieces of each slot in turn;
    Subtract is that loop as a function, and the lemmas below say what it means. */
module FreeSlots {
  import opened Intervals

  function Piece(start: Instant, end: Instant): seq<Window> {
    if start < end then [Window(start, end)] else []
  }

  /** What one slot contributes to the new list. */
  function Carve(slot: Window, w: Window): seq<Window> {
    if !Overlaps(slot, w) then [slot]
    else Piece(slot.start, w.start) + Piece(w.end, slot.end)
  }

  function Subtract(slots: seq<Window>, w: Window): seq<Window> {
    if slots == [] then []
    else Subtract(slots[..|slots| - 1], w) + Carve(slots[|slots| - 1], w)
  }

  /** handyman_has_slot: some single slot contains the whole desired window. */
  predicate HasSlot(slots: seq<Window>, w: Window) {
    w.Nonempty() && exists i :: 0 <= i < |slots| && FullyContains(slots[i], w)
  }

  ghost predicate Covers(slots: seq<Window>, x: Instant) {
    exists i :: 0 <= i < |slots| && slots[i].Has(x)
  }

  ghost predicate WellFormed(slots: seq<Window>) {
    forall i :: 0 <= i < |slots| ==> slots[i].Nonempty()
  }

  ghost predicate Disjoint(slots: seq<Window>) {
    forall i, j :: 0 <= i < j < |slots| ==> !Overlaps(slots[i], slots[j])
  }

  ghost predicate Ordered(slots: seq<Window>) {
    forall i, j :: 0 <= i < j < |slots| ==> slots[i].end <= slots[j].start
  }

  function TotalTime(slots: seq<Window>): int {
    if slots == [] then 0 else TotalTime(slots[..|slots| - 1]) + slots[|slots| - 1].Length()
  }

  // ---- Set subtraction ----

  lemma CoversConcat(a: seq<Window>, b: seq<Window>, x: Instant)
    ensures Covers(a + b, x) <==> Covers(a, x) || Covers(b, x)
  {
    if Covers(a, x) {
      var i :| 0 <= i < |a| && a[i].Has(x);
      assert (a + b)[i].Has(x);
    }
    if Covers(b, x) {
      var i :| 0 <= i < |b| && b[i].Has(x);
      assert (a + b)[|a| + i].Has(x);
    }
  }

  lemma CarveCoversExactly(slot: Window, w: Window, x: Instant)
    ensures Covers(Carve(slot, w), x) <==> slot.Has(x) && !w.Has(x)
  {
    var pieces := Carve(slot, w);
    if slot.Has(x) && !w.Has(x) {
      if !Overlaps(slot, w) || x < w.start {
        assert pieces[0].Has(x);
      } else {
        assert pieces[|pieces| - 1].Has(x);
      }
    }
  }

  /** Confirming is exact set subtraction, for every list and every window. */
  lemma {:induction false} SubtractCoversExactly(slots: seq<Window>, w: Window, x: Instant)
    ensures Covers(Subtract(slots, w), x) <==> Covers(slots, x) && !w.Has(x)
  {
    if slots != [] {
      var init, last := slots[..|slots| - 1], slots[|slots| - 1];
      SubtractCoversExactly(init, w, x);
      CarveCoversExactly(last, w, x);
      CoversConcat(Subtract(init, w), Carve(last, w), x);
      CoversConcat(init, [last], x);
      assert slots == init + [last];
      assert Covers([last], x) <==> last.Has(x) by {
        assert [last][0] == last;
      }
    }
  }

  lemma {:induction false} AppendOne(slots: seq<Window>, init: seq<Window>, last: Window, w: Window)
    requires slots == init + [last]
    ensures Subtract(slots, w) == Subtract(init, w) + Carve(last, w)
  {
    assert slots[..|slots| - 1] == init;
  }

  lemma {:induction false} SubtractStep(slots: seq<Window>, i: nat, w: Window)
    requires i < |slots|
    ensures Subtract(slots[..i + 1], w) == Subtract(slots[..i], w) + Carve(slots[i], w)
  {
    assert slots[..i + 1] == slots[..i] + [slots[i]];
    AppendOne(slots[..i + 1], slots[..i], slots[i], w);
  }

  lemma ConcatAssociates(a: seq<Window>, b: seq<Window>, c: seq<Window>)
    ensures (a + b) + c == a + (b + c)
  {
  }

  lemma {:induction false} SubtractConcat(a: seq<Window>, b: seq<Window>, w: Window)
    ensures Subtract(a + b, w) == Subtract(a, w) + Subtract(b, w)
  {
    if b == [] {
      assert a + b == a;
    } else {
      var init, last := b[..|b| - 1], b[|b| - 1];
      SubtractConcat(a, init, w);
      assert b == init + [last] && a + b == (a + init) + [last];
      AppendOne(b, init, last, w);
      AppendOne(a + b, a + init, last, w);
      ConcatAssociates(Subtract(a, w), Subtract(init, w), Carve(last, w));
    }
  }

  lemma {:induction false} SubtractSingle(s: Window, w: Window)
    ensures Subtract([s], w) == Carve(s, w)
  {
    assert [s][..0] == [];
  }

  lemma {:induction false} SubtractPair(s: Window, t: Window, w: Window)
    ensures Subtract([s, t], w) == Carve(s, w) + Carve(t, w)
  {
    assert [s, t] == [s] + [t];
    SubtractConcat([s], [t], w);
    SubtractSingle(s, w);
    SubtractSingle(t, w);
  }

  // ---- Shape of the new list ----

  /** A piece never leaves the slot it was cut from. */
  lemma {:induction false} PiecesStayInside(slots: seq<Window>, w: Window, k: nat)
    requires k < |Subtract(slots, w)|
    ensures exists i :: 0 <= i < |slots| && FullyContains(slots[i], Subtract(slots, w)[k])
  {
    var init, last := slots[..|slots| - 1], slots[|slots| - 1];
    if k < |Subtract(init, w)| {
      PiecesStayInside(init, w, k);
      var i :| 0 <= i < |init| && FullyContains(init[i], Subtract(init, w)[k]);
      assert slots[i] == init[i];
    } else {
      assert Subtract(slots, w)[k] == Carve(last, w)[k - |Subtract(init, w)|];
      assert FullyContains(slots[|slots| - 1], Subtract(slots, w)[k]);
    }
  }

  lemma {:induction false} SubtractKeepsWellFormed(slots: seq<Window>, w: Window)
    requires WellFormed(slots)
    ensures WellFormed(Subtract(slots, w))
  {
    if slots != [] {
      SubtractKeepsWellFormed(slots[..|slots| - 1], w);
    }
  }

  lemma {:induction false} SubtractKeepsDisjoint(slots: seq<Window>, w: Window)
    requires w.start <= w.end && Disjoint(slots)
    ensures Disjoint(Subtract(slots, w))
  {
    if slots != [] {
      var init, last := slots[..|slots| - 1], slots[|slots| - 1];
      var kept, pieces := Subtract(init, w), Carve(last, w);
      SubtractKeepsDisjoint(init, w);
      forall i, j | 0 <= i < |kept| && 0 <= j < |pieces|
        ensures !Overlaps(kept[i], pieces[j])
      {
        PiecesStayInside(init, w, i);
        var p :| 0 <= p < |init| && FullyContains(init[p], kept[i]);
        assert !Overlaps(slots[p], slots[|slots| - 1]);
      }
    }
  }

  lemma {:induction false} SubtractKeepsOrdered(slots: seq<Window>, w: Window)
    requires w.start <= w.end && Ordered(slots)
    ensures Ordered(Subtract(slots, w))
  {
    if slots != [] {
      var init, last := slots[..|slots| - 1], slots[|slots| - 1];
      var kept, pieces := Subtract(init, w), Carve(last, w);
      SubtractKeepsOrdered(init, w);
      forall i, j | 0 <= i < |kept| && 0 <= j < |pieces|
        ensures kept[i].end <= pieces[j].start
      {
        PiecesStayInside(init, w, i);
        var p :| 0 <= p < |init| && FullyContains(init[p], kept[i]);
        assert slots[p].end <= slots[|slots| - 1].start;
      }
    }
  }

  /** Only a slot that strictly contains the window is split in two. */
  predicate Splits(slot: Window, w: Window) {
    slot.start < w.start && w.end < slot.end
  }

  lemma {:induction false} NoGrowthWithoutSplit(slots: seq<Window>, w: Window)
    requires w.start <= w.end
    requires forall i :: 0 <= i < |slots| ==> !Splits(slots[i], w)
    ensures |Subtract(slots, w)| <= |slots|
  {
    if slots != [] {
      NoGrowthWithoutSplit(slots[..|slots| - 1], w);
      assert !Splits(slots[|slots| - 1], w);
    }
  }

  /** A disjoint list grows by at most one slot. */
  lemma {:induction false} SubtractGrowsByAtMostOne(slots: seq<Window>, w: Window)
    requires w.start <= w.end && Disjoint(slots)
    ensures |Subtract(slots, w)| <= |slots| + 1
  {
    if slots != [] {
      var init, last := slots[..|slots| - 1], slots[|slots| - 1];
      if Splits(last, w) {
        forall i | 0 <= i < |init|
          ensures !Splits(init[i], w)
        {
          assert !Overlaps(slots[i], slots[|slots| - 1]);
        }
        NoGrowthWithoutSplit(init, w);
      } else {
        SubtractGrowsByAtMostOne(init, w);
      }
    }
  }

  // ---- Idempotence and commutation ----

  lemma {:induction false} CarveIdempotent(slot: Window, w: Window)
    ensures Subtract(Carve(slot, w), w) == Carve(slot, w)
  {
    var pieces := Carve(slot, w);
    if |pieces| == 1 {
      SubtractSingle(pieces[0], w);
    } else if |pieces| == 2 {
      SubtractPair(pieces[0], pieces[1], w);
    }
  }

  /** Confirming the same window twice is confirming it once. */
  lemma {:induction false} SubtractIdempotent(slots: seq<Window>, w: Window)
    ensures Subtract(Subtract(slots, w), w) == Subtract(slots, w)
  {
    if slots != [] {
      var init, last := slots[..|slots| - 1], slots[|slots| - 1];
      SubtractIdempotent(init, w);
      CarveIdempotent(last, w);
      SubtractConcat(Subtract(init, w), Carve(last, w), w);
    }
  }

  lemma {:induction false} SubtractPiece(start: Instant, end: Instant, w: Window)
    ensures Subtract(Piece(start, end), w) == if start < end then Carve(Window(start, end), w) else []
  {
    SubtractSingle(Window(start, end), w);
  }

  lemma {:induction false} SubtractCarve(slot: Window, a: Window, b: Window)
    requires Overlaps(slot, a)
    ensures Subtract(Carve(slot, a), b) ==
            Subtract(Piece(slot.start, a.start), b) + Subtract(Piece(a.end, slot.end), b)
  {
    SubtractConcat(Piece(slot.start, a.start), Piece(a.end, slot.end), b);
  }

  lemma {:induction false} CarveUntouched(slot: Window, a: Window, b: Window)
    requires b.start <= b.end && !Overlaps(slot, a)
    ensures Subtract(Carve(slot, a), b) == Subtract(Carve(slot, b), a)
  {
    SubtractSingle(slot, b);
    var pieces := Carve(slot, b);
    forall i | 0 <= i < |pieces|
      ensures !Overlaps(pieces[i], a)
    {
      assert slot.start <= pieces[i].start && pieces[i].end <= slot.end;
    }
    SubtractElsewhere(pieces, a);
  }

  lemma {:induction false} PieceBeside(start: Instant, end: Instant, w: Window)
    requires end <= w.start || w.end <= start
    ensures Subtract(Piece(start, end), w) == Piece(start, end)
  {
    SubtractPiece(start, end, w);
  }

  lemma {:induction false} PieceAround(start: Instant, end: Instant, w: Window)
    requires w.start <= w.end
    requires start <= w.start < end || start < w.end <= end
    ensures Subtract(Piece(start, end), w) == Piece(start, w.start) + Piece(w.end, end)
  {
    SubtractPiece(start, end, w);
    if start < end {
      CarveAround(start, end, w);
    }
  }

  lemma CarveAround(start: Instant, end: Instant, w: Window)
    requires w.start <= w.end && start < end
    requires start <= w.start < end || start < w.end <= end
    ensures Carve(Window(start, end), w) == Piece(start, w.start) + Piece(w.end, end)
  {
  }

  lemma {:induction false} CarveApart(slot: Window, a: Window, b: Window)
    requires a.start <= a.end <= b.start <= b.end
    requires Overlaps(slot, a) && Overlaps(slot, b)
    ensures Subtract(Carve(slot, a), b) == Subtract(Carve(slot, b), a)
  {
    var left, middle, right := Piece(slot.start, a.start), Piece(a.end, b.start), Piece(b.end, slot.end);
    SubtractCarve(slot, a, b);
    PieceBeside(slot.start, a.start, b);
    PieceAround(a.end, slot.end, b);
    SubtractCarve(slot, b, a);
    PieceAround(slot.start, b.start, a);
    PieceBeside(b.end, slot.end, a);
    ConcatAssociates(left, middle, right);
  }

  lemma {:induction false} PieceClippedRight(start: Instant, end: Instant, w: Window)
    requires w.start <= w.end && end < w.end
    ensures Subtract(Piece(start, end), w) == Piece(start, if end < w.start then end else w.start)
  {
    SubtractPiece(start, end, w);
  }

  lemma {:induction false} PieceClippedLeft(start: Instant, end: Instant, w: Window)
    requires w.start <= w.end && w.start < start
    ensures Subtract(Piece(start, end), w) == Piece(if start > w.end then start else w.end, end)
  {
    SubtractPiece(start, end, w);
  }

  lemma {:induction false} CarveMeeting(slot: Window, a: Window, b: Window)
    requires a.start <= a.end && b.start <= b.end && a.start < b.end && b.start < a.end
    requires Overlaps(slot, a) && Overlaps(slot, b)
    ensures Subtract(Carve(slot, a), b) ==
            Piece(slot.start, if a.start < b.start then a.start else b.start)
            + Piece(if a.end > b.end then a.end else b.end, slot.end)
  {
    SubtractCarve(slot, a, b);
    PieceClippedRight(slot.start, a.start, b);
    PieceClippedLeft(a.end, slot.end, b);
  }

  lemma {:induction false} CarveCommutes(slot: Window, a: Window, b: Window)
    requires a.start <= a.end && b.start <= b.end
    ensures Subtract(Carve(slot, a), b) == Subtract(Carve(slot, b), a)
  {
    if !Overlaps(slot, a) {
      CarveUntouched(slot, a, b);
    } else if !Overlaps(slot, b) {
      CarveUntouched(slot, b, a);
    } else if a.end <= b.start {
      CarveApart(slot, a, b);
    } else if b.end <= a.start {
      CarveApart(slot, b, a);
    } else {
      CarveMeeting(slot, a, b);
      CarveMeeting(slot, b, a);
    }
  }

  /** The order of two confirms does not matter, not even for the list that results. */
  lemma {:induction false} SubtractCommutes(slots: seq<Window>, a: Window, b: Window)
    requires a.start <= a.end && b.start <= b.end
    ensures Subtract(Subtract(slots, a), b) == Subtract(Subtract(slots, b), a)
  {
    if slots != [] {
      var init, last := slots[..|slots| - 1], slots[|slots| - 1];
      SubtractCommutes(init, a, b);
      CarveCommutes(last, a, b);
      SubtractConcat(Subtract(init, a), Carve(last, a), b);
      SubtractConcat(Subtract(init, b), Carve(last, b), a);
    }
  }

  ghost predicate CommuteOn(slots: seq<Window>, a: Window, b: Window) {
    Subtract(Subtract(slots, a), b) == Subtract(Subtract(slots, b), a)
  }

  /** A window that ends before it starts cuts overlapping pieces, and then the order shows. */
  lemma ReversedWindowDoesNotCommute(a: Window)
    requires a.end < a.start
    ensures !CommuteOn([Window(a.end - 1, a.start + 2)], a, Window(a.start, a.start + 1))
  {
    var slot, b := Window(a.end - 1, a.start + 2), Window(a.start, a.start + 1);
    var left, right, tail := Window(a.end - 1, a.start), Window(a.end, a.start + 2), Window(a.start + 1, a.start + 2);
    SubtractSingle(slot, a);
    SubtractSingle(slot, b);
    SubtractPair(left, right, b);
    SubtractPair(left, tail, a);
    assert Subtract([slot], a) == [left, right] && Subtract([slot], b) == [left, tail];
    assert |Subtract([left, right], b)| == 3 && |Subtract([left, tail], a)| == 2;
  }

  /** A window commutes with every nonempty window on every list exactly when it is not reversed.
      handyman_has_slot refuses the others before any reservation is made. */
  lemma CommutesExactlyWhenNotReversed(a: Window)
    ensures (forall slots, b: Window :: b.Nonempty() ==> CommuteOn(slots, a, b)) <==> a.start <= a.end
  {
    if a.start <= a.end {
      forall slots, b: Window | b.Nonempty()
        ensures CommuteOn(slots, a, b)
      {
        SubtractCommutes(slots, a, b);
      }
    } else {
      ReversedWindowDoesNotCommute(a);
      assert Window(a.start, a.start + 1).Nonempty();
    }
  }

  // ---- Time ----

  lemma {:induction false} TotalTimeConcat(a: seq<Window>, b: seq<Window>)
    ensures TotalTime(a + b) == TotalTime(a) + TotalTime(b)
  {
    if b == [] {
      assert a + b == a;
    } else {
      TotalTimeConcat(a, b[..|b| - 1]);
      assert (a + b)[..|a + b| - 1] == a + b[..|b| - 1];
    }
  }

  lemma {:induction false} SubtractElsewhere(slots: seq<Window>, w: Window)
    requires forall i :: 0 <= i < |slots| ==> !Overlaps(slots[i], w)
    ensures Subtract(slots, w) == slots
  {
    if slots != [] {
      SubtractElsewhere(slots[..|slots| - 1], w);
      assert !Overlaps(slots[|slots| - 1], w);
    }
  }

  /** Inside one slot of a disjoint list, confirming touches that slot only. */
  lemma {:induction false} SubtractInsideOneSlot(before: seq<Window>, slot: Window, after: seq<Window>, w: Window)
    requires w.Nonempty() && FullyContains(slot, w) && Disjoint(before + [slot] + after)
    ensures Subtract(before + [slot] + after, w) == before + Carve(slot, w) + after
  {
    OthersUntouched(before, slot, after, w);
    SubtractElsewhere(before, w);
    SubtractElsewhere(after, w);
    SubtractSingle(slot, w);
    SubtractConcat(before, [slot], w);
    SubtractConcat(before + [slot], after, w);
  }

  lemma OthersUntouched(before: seq<Window>, slot: Window, after: seq<Window>, w: Window)
    requires FullyContains(slot, w) && Disjoint(before + [slot] + after)
    ensures forall i :: 0 <= i < |before| ==> !Overlaps(before[i], w)
    ensures forall i :: 0 <= i < |after| ==> !Overlaps(after[i], w)
  {
    var slots := before + [slot] + after;
    assert slots[|before|] == slot;
    forall i | 0 <= i < |before|
      ensures !Overlaps(before[i], w)
    {
      assert !Overlaps(slots[i], slots[|before|]);
    }
    forall i | 0 <= i < |after|
      ensures !Overlaps(after[i], w)
    {
      assert slots[|before| + 1 + i] == after[i];
      assert !Overlaps(slots[|before|], slots[|before| + 1 + i]);
    }
  }

  lemma CarveTime(slot: Window, w: Window)
    requires w.Nonempty() && FullyContains(slot, w)
    ensures TotalTime(Carve(slot, w)) == slot.Length() - w.Length()
  {
    TotalTimeConcat(Piece(slot.start, w.start), Piece(w.end, slot.end));
    TotalTimePiece(slot.start, w.start);
    TotalTimePiece(w.end, slot.end);
  }

  lemma TotalTimePiece(start: Instant, end: Instant)
    requires start <= end
    ensures TotalTime(Piece(start, end)) == end - start
  {
    assert [Window(start, end)][..0] == [];
  }

  lemma {:induction false} TotalTimeAround(before: seq<Window>, middle: seq<Window>, after: seq<Window>)
    ensures TotalTime(before + middle + after) == TotalTime(before) + TotalTime(middle) + TotalTime(after)
  {
    TotalTimeConcat(before + middle, after);
    TotalTimeConcat(before, middle);
  }

  lemma {:induction false} TimeTakenInsideOneSlot(before: seq<Window>, slot: Window, after: seq<Window>, w: Window)
    requires w.Nonempty() && FullyContains(slot, w) && Disjoint(before + [slot] + after)
    ensures TotalTime(Subtract(before + [slot] + after, w)) == TotalTime(before + [slot] + after) - w.Length()
  {
    SubtractInsideOneSlot(before, slot, after, w);
    TotalTimeAround(before, Carve(slot, w), after);
    TotalTimeAround(before, [slot], after);
    CarveTime(slot, w);
    TotalTimeSingle(slot);
  }

  lemma TotalTimeSingle(s: Window)
    ensures TotalTime([s]) == s.Length()
  {
    assert [s][..0] == [];
  }

  /** Free time falls by exactly the length of the confirmed window. */
  lemma {:induction false} SubtractTakesExactlyTheWindow(slots: seq<Window>, w: Window)
    requires HasSlot(slots, w) && Disjoint(slots)
    ensures TotalTime(Subtract(slots, w)) == TotalTime(slots) - w.Length()
  {
    var k :| 0 <= k < |slots| && FullyContains(slots[k], w);
    assert slots == slots[..k] + [slots[k]] + slots[k + 1..];
    TimeTakenInsideOneSlot(slots[..k], slots[k], slots[k + 1..], w);
  }

  lemma HasSlotConcat(a: seq<Window>, b: seq<Window>, w: Window)
    ensures HasSlot(a + b, w) <==> HasSlot(a, w) || HasSlot(b, w)
  {
    if HasSlot(a, w) {
      var i :| 0 <= i < |a| && FullyContains(a[i], w);
      assert FullyContains((a + b)[i], w);
    }
    if HasSlot(b, w) {
      var i :| 0 <= i < |b| && FullyContains(b[i], w);
      assert FullyContains((a + b)[|a| + i], w);
    }
  }

  lemma CarveKeepsOther(slot: Window, w: Window, other: Window)
    requires w.Nonempty() && other.Nonempty() && !Overlaps(w, other)
    requires FullyContains(slot, w) && FullyContains(slot, other)
    ensures HasSlot(Carve(slot, w), other)
  {
    HasSlotConcat(Piece(slot.start, w.start), Piece(w.end, slot.end), other);
    if other.end <= w.start {
      assert FullyContains(Piece(slot.start, w.start)[0], other);
    } else {
      assert FullyContains(Piece(w.end, slot.end)[0], other);
    }
  }

  lemma {:induction false} OtherKeptAroundOneSlot(before: seq<Window>, slot: Window, after: seq<Window>, w: Window, other: Window)
    requires w.Nonempty() && FullyContains(slot, w) && Disjoint(before + [slot] + after)
    requires HasSlot(before + [slot] + after, other) && !Overlaps(w, other)
    ensures HasSlot(Subtract(before + [slot] + after, w), other)
  {
    SubtractInsideOneSlot(before, slot, after, w);
    HasSlotConcat(before + Carve(slot, w), after, other);
    HasSlotConcat(before, Carve(slot, w), other);
    HasSlotConcat(before + [slot], after, other);
    HasSlotConcat(before, [slot], other);
    if HasSlot([slot], other) {
      CarveKeepsOther(slot, w, other);
    }
  }

  /** Another window that sits inside one slot still does after a confirm it does not overlap. */
  lemma {:induction false} SubtractKeepsOtherWindowsWhole(slots: seq<Window>, w: Window, other: Window)
    requires HasSlot(slots, w) && HasSlot(slots, other) && Disjoint(slots) && !Overlaps(w, other)
    ensures HasSlot(Subtract(slots, w), other)
  {
    var k :| 0 <= k < |slots| && FullyContains(slots[k], w);
    assert slots == slots[..k] + [slots[k]] + slots[k + 1..];
    OtherKeptAroundOneSlot(slots[..k], slots[k], slots[k + 1..], w, other);
  }
}
