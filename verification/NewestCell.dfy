/** Last-writer-wins by timestamp (the guarded updates of app/esi/personnel_archive.py). */
module NewestCell {
  import opened Common

  /** A timestamped cell that only a strictly newer write replaces. */
  datatype Stamped<T> = Stamped(at: real, value: T)

  function Newer<T>(cell: Option<Stamped<T>>, w: Stamped<T>): Option<Stamped<T>> {
    if cell.None? || cell.value.at < w.at then Some(w) else cell
  }

  function NewerAll<T>(cell: Option<Stamped<T>>, ws: seq<Stamped<T>>): Option<Stamped<T>> {
    if ws == [] then cell else Newer(NewerAll(cell, ws[..|ws| - 1]), ws[|ws| - 1])
  }

  /** r is a maximum of the cell and the writes; the cell itself wins ties. */
  ghost predicate IsNewest<T>(cell: Option<Stamped<T>>, ws: seq<Stamped<T>>, r: Option<Stamped<T>>) {
    && (r.None? <==> cell.None? && ws == [])
    && (r.Some? ==> (r == cell || r.value in ws)
                    && (cell.Some? ==> cell.value.at <= r.value.at)
                    && (forall w :: w in ws ==> w.at <= r.value.at)
                    && (cell.Some? && cell.value.at == r.value.at ==> r == cell))
  }

  lemma NewerStaysNewest<T>(cell: Option<Stamped<T>>, ws: seq<Stamped<T>>, w: Stamped<T>, r: Option<Stamped<T>>)
    requires IsNewest(cell, ws, r)
    ensures IsNewest(cell, ws + [w], Newer(r, w))
  {
    assert forall x :: x in ws + [w] <==> x in ws || x == w;
  }

  /** What a run of writes leaves. */
  lemma {:induction false} NewerAllIsNewest<T>(cell: Option<Stamped<T>>, ws: seq<Stamped<T>>)
    ensures IsNewest(cell, ws, NewerAll(cell, ws))
  {
    if ws != [] {
      NewerAllIsNewest(cell, ws[..|ws| - 1]);
      NewerStaysNewest(cell, ws[..|ws| - 1], ws[|ws| - 1], NewerAll(cell, ws[..|ws| - 1]));
      assert ws == ws[..|ws| - 1] + [ws[|ws| - 1]];
    }
  }

  /**
    With distinct timestamps, every arrival order and every duplication of the same writes ends in
    the same cell.
   */
  lemma ArrivalOrderIrrelevant<T>(cell: Option<Stamped<T>>, ws: seq<Stamped<T>>, vs: seq<Stamped<T>>)
    requires forall w :: w in ws <==> w in vs
    requires forall a, b :: a in ws && b in ws && a.at == b.at ==> a == b
    ensures NewerAll(cell, ws) == NewerAll(cell, vs)
  {
    NewerAllIsNewest(cell, ws);
    NewerAllIsNewest(cell, vs);
    var x, y := NewerAll(cell, ws), NewerAll(cell, vs);
    if x.Some? && y.Some? {
      assert x.value.at == y.value.at;
    }
  }
}
