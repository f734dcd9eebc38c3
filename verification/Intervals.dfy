/** Half-open time windows and the two interval tests every service shares
    (shared/shared/intervals.py). Instants are integers. */
module Intervals {

  type Instant = int

  datatype Window = Window(start: Instant, end: Instant) {
    /** The instants of a half-open window. */
    predicate Has(x: Instant) {
      start <= x < end
    }

    predicate Nonempty() {
      start < end
    }

    function Length(): int {
      end - start
    }
  }

  predicate Overlaps(a: Window, b: Window) {
    a.start < b.end && a.end > b.start
  }

  predicate FullyContains(outer: Window, inner: Window) {
    outer.start <= inner.start && outer.end >= inner.end
  }

  /** The comparison test finds a shared instant exactly when neither window is empty. */
  lemma OverlapsIffShareAnInstant(a: Window, b: Window)
    ensures (exists x :: a.Has(x) && b.Has(x)) <==> Overlaps(a, b) && a.Nonempty() && b.Nonempty()
  {
    if Overlaps(a, b) && a.Nonempty() && b.Nonempty() {
      var x := if a.start < b.start then b.start else a.start;
      assert a.Has(x) && b.Has(x);
    }
  }

  /** For a non-empty inner window the end-point test is inclusion of instants. */
  lemma ContainsIffInclusion(outer: Window, inner: Window)
    requires inner.Nonempty()
    ensures FullyContains(outer, inner) <==> forall x :: inner.Has(x) ==> outer.Has(x)
  {
    if forall x :: inner.Has(x) ==> outer.Has(x) {
      assert inner.Has(inner.start) && inner.Has(inner.end - 1);
    }
  }
}
