/**
 * The topology shared by all three parking lots: an ordered list of floors
 * (levels), each an ordered list of slots. This module states the scan order
 * that every allocator in the repository follows (floor by floor, then slot by
 * slot, stopping at the first match), how a single slot is replaced, and how
 * many slots satisfy a condition. It is generic in what a slot looks like.
 */
module Grid {
  import opened Wrappers

  /** A position: the index of the floor in the lot, then of the slot in the floor. */
  datatype Pos = Pos(floor: nat, slot: nat)

  predicate InGrid<S>(g: seq<seq<S>>, p: Pos)
  {
    p.floor < |g| && p.slot < |g[p.floor]|
  }

  function At<S>(g: seq<seq<S>>, p: Pos): S
    requires InGrid(g, p)
  {
    g[p.floor][p.slot]
  }

  /** Appending a floor leaves every existing position and its element as it was. */
  lemma AppendKeeps<S>(g: seq<seq<S>>, row: seq<S>)
    ensures forall q {:trigger At(g, q)} {:trigger InGrid(g, q)} :: InGrid(g, q) ==> InGrid(g + [row], q) && At(g + [row], q) == At(g, q)
  {
    forall q | InGrid(g, q)
      ensures InGrid(g + [row], q) && At(g + [row], q) == At(g, q)
    {
      assert (g + [row])[q.floor] == g[q.floor];
    }
  }

  /** `p` is visited before `q` by a scan in floor order, then slot order. */
  predicate Before(p: Pos, q: Pos)
  {
    p.floor < q.floor || (p.floor == q.floor && p.slot < q.slot)
  }

  /** Same shape: same number of floors, and the same number of slots on each. */
  predicate SameShape<S, T>(g: seq<seq<S>>, h: seq<seq<T>>)
  {
    |g| == |h| && forall i :: 0 <= i < |g| ==> |g[i]| == |h[i]|
  }

  /** The grid with the slot at `p` replaced by `v`. */
  function Put<S>(g: seq<seq<S>>, p: Pos, v: S): (r: seq<seq<S>>)
    requires InGrid(g, p)
    ensures SameShape(g, r)
    ensures At(r, p) == v
    ensures forall q :: InGrid(g, q) && q != p ==> At(r, q) == At(g, q)
  {
    g[p.floor := g[p.floor][p.slot := v]]
  }

  /** Putting twice at the same position keeps only the second value. */
  lemma PutPut<S>(g: seq<seq<S>>, p: Pos, v: S, w: S)
    requires InGrid(g, p)
    ensures Put(Put(g, p, v), p, w) == Put(g, p, w)
  {
    assert Put(Put(g, p, v), p, w)[p.floor] == Put(g, p, w)[p.floor];
  }

  /** Putting back the element already at a position changes nothing. */
  lemma PutAt<S>(g: seq<seq<S>>, p: Pos)
    requires InGrid(g, p)
    ensures Put(g, p, At(g, p)) == g
  {
    assert Put(g, p, At(g, p))[p.floor] == g[p.floor];
  }

  /**
   * The first index at or after `from` whose element satisfies `p`: the
   * `for x in xs: if p(x): return x` loop resumed at `from`.
   */
  function FirstFrom<S>(row: seq<S>, p: S -> bool, from: nat): (r: Option<nat>)
    decreases |row| - from
    ensures r.Some? ==> from <= r.value < |row| && p(row[r.value])
    ensures r.Some? ==> forall k :: from <= k < r.value ==> !p(row[k])
    ensures r.None? ==> forall k :: from <= k < |row| ==> !p(row[k])
  {
    if from >= |row| then None
    else if p(row[from]) then Some(from)
    else FirstFrom(row, p, from + 1)
  }

  /** The first index of `row` whose element satisfies `p`, or None if there is none. */
  function FirstIndex<S>(row: seq<S>, p: S -> bool): (r: Option<nat>)
    ensures r.Some? ==> r.value < |row| && p(row[r.value])
    ensures r.Some? ==> forall k :: 0 <= k < r.value ==> !p(row[k])
    ensures r.None? <==> forall k :: 0 <= k < |row| ==> !p(row[k])
  {
    FirstFrom(row, p, 0)
  }

  /** The first position on floor `from` or later (in scan order) whose slot satisfies `p`. */
  function FirstPosFrom<S>(g: seq<seq<S>>, p: S -> bool, from: nat): (r: Option<Pos>)
    decreases |g| - from
  {
    if from >= |g| then None
    else match FirstIndex(g[from], p)
      case Some(k) => Some(Pos(from, k))
      case None => FirstPosFrom(g, p, from + 1)
  }

  /** `FirstPosFrom` finds the first satisfying position in scan order at floor `from` or later. */
  lemma {:induction false} FirstPosFromFinds<S>(g: seq<seq<S>>, p: S -> bool, from: nat)
    decreases |g| - from
    ensures var r := FirstPosFrom(g, p, from);
      && (r.Some? ==> from <= r.value.floor && InGrid(g, r.value) && p(At(g, r.value)))
      && (r.Some? ==> forall q :: InGrid(g, q) && from <= q.floor && Before(q, r.value) ==> !p(At(g, q)))
      && (r.None? ==> forall q :: InGrid(g, q) && from <= q.floor ==> !p(At(g, q)))
  {
    if from < |g| && FirstIndex(g[from], p).None? {
      FirstPosFromFinds(g, p, from + 1);
    }
  }

  /**
   * First fit: the first position, floor by floor and then slot by slot, whose
   * slot satisfies `p`; None exactly when no slot of the grid does.
   */
  function FirstPos<S>(g: seq<seq<S>>, p: S -> bool): (r: Option<Pos>)
    ensures r.Some? ==> InGrid(g, r.value) && p(At(g, r.value))
    ensures r.Some? ==> forall q :: InGrid(g, q) && Before(q, r.value) ==> !p(At(g, q))
    ensures r.None? <==> forall q :: InGrid(g, q) ==> !p(At(g, q))
  {
    FirstPosFromFinds(g, p, 0);
    FirstPosFrom(g, p, 0)
  }

  /** Any position that satisfies `p` and has no satisfying predecessor is the first fit. */
  lemma FirstPosUnique<S>(g: seq<seq<S>>, p: S -> bool, x: Pos)
    requires InGrid(g, x) && p(At(g, x))
    requires forall q :: InGrid(g, q) && Before(q, x) ==> !p(At(g, q))
    ensures FirstPos(g, p) == Some(x)
  {
  }

  /**
   * `posOf` gives the position of every element of `layout`, and of nothing
   * else. Since `posOf` is a map, no element sits at two positions: this is
   * how the lots say that their slots are distinct objects.
   */
  ghost predicate Indexes<T>(layout: seq<seq<T>>, posOf: map<T, Pos>)
  {
    && (forall i, j {:trigger layout[i][j]} :: 0 <= i < |layout| && 0 <= j < |layout[i]| ==>
          layout[i][j] in posOf && posOf[layout[i][j]] == Pos(i, j))
    && (forall x :: x in posOf ==> InGrid(layout, posOf[x]) && At(layout, posOf[x]) == x)
  }

  /** The positions of a row of distinct elements placed as floor `n`. */
  ghost function RowIndex<T>(row: seq<T>, n: nat): (m: map<T, Pos>)
    requires forall j, j' :: 0 <= j < j' < |row| ==> row[j] != row[j']
    ensures forall j {:trigger row[j]} :: 0 <= j < |row| ==> row[j] in m && m[row[j]] == Pos(n, j)
    ensures forall x :: x in m ==> m[x].floor == n && m[x].slot < |row| && row[m[x].slot] == x
  {
    map j | 0 <= j < |row| :: row[j] := Pos(n, j)
  }

  /**
   * Appending a floor of new, distinct elements: the old index together with
   * the positions of the new floor indexes the longer layout.
   */
  lemma IndexesAppend<T>(layout: seq<seq<T>>, posOf: map<T, Pos>, row: seq<T>)
    requires Indexes(layout, posOf)
    requires forall j, j' :: 0 <= j < j' < |row| ==> row[j] != row[j']
    requires forall j :: 0 <= j < |row| ==> row[j] !in posOf
    ensures Indexes(layout + [row], posOf + RowIndex(row, |layout|))
  {
    var added := RowIndex(row, |layout|);
    var l := layout + [row];
    var m := posOf + added;
    forall i, j | 0 <= i < |l| && 0 <= j < |l[i]|
      ensures l[i][j] in m && m[l[i][j]] == Pos(i, j)
    {
      if i < |layout| {
        assert l[i] == layout[i];
        assert l[i][j] !in added;
      }
    }
    forall x | x in m
      ensures InGrid(l, m[x]) && At(l, m[x]) == x
    {
      if x !in added {
        assert l[posOf[x].floor] == layout[posOf[x].floor];
      }
    }
  }

  /** The number of elements of `row` that satisfy `p`. */
  function CountRow<S>(row: seq<S>, p: S -> bool): nat
  {
    if row == [] then 0 else (if p(row[0]) then 1 else 0) + CountRow(row[1..], p)
  }

  /** The number of slots of the grid that satisfy `p`. */
  function Count<S>(g: seq<seq<S>>, p: S -> bool): nat
  {
    if g == [] then 0 else CountRow(g[0], p) + Count(g[1..], p)
  }

  /** A floor appended to the grid adds its own count to the grid's. */
  lemma {:induction false} CountAppend<S>(g: seq<seq<S>>, row: seq<S>, p: S -> bool)
    ensures Count(g + [row], p) == Count(g, p) + CountRow(row, p)
  {
    if g == [] {
      assert (g + [row])[1..] == [];
    } else {
      assert (g + [row])[1..] == g[1..] + [row];
      CountAppend(g[1..], row, p);
    }
  }

  function Indicator(b: bool): nat
  {
    if b then 1 else 0
  }

  lemma {:induction false} CountRowUpdate<S>(row: seq<S>, k: nat, v: S, p: S -> bool)
    requires k < |row|
    ensures CountRow(row[k := v], p) == CountRow(row, p) - Indicator(p(row[k])) + Indicator(p(v))
  {
    if k == 0 {
      assert row[k := v][1..] == row[1..];
    } else {
      assert row[k := v][1..] == row[1..][k - 1 := v];
      CountRowUpdate(row[1..], k - 1, v, p);
    }
  }

  /** Replacing one slot changes the count by at most one, exactly as the old and new slot decide. */
  lemma {:induction false} CountPut<S>(g: seq<seq<S>>, x: Pos, v: S, p: S -> bool)
    requires InGrid(g, x)
    ensures Count(Put(g, x, v), p) == Count(g, p) - Indicator(p(At(g, x))) + Indicator(p(v))
  {
    if x.floor == 0 {
      assert Put(g, x, v)[1..] == g[1..];
      CountRowUpdate(g[0], x.slot, v, p);
    } else {
      var x' := Pos(x.floor - 1, x.slot);
      assert Put(g, x, v)[1..] == Put(g[1..], x', v);
      CountPut(g[1..], x', v, p);
    }
  }

  lemma {:induction false} CountRowZero<S>(row: seq<S>, p: S -> bool)
    ensures CountRow(row, p) == 0 <==> forall k :: 0 <= k < |row| ==> !p(row[k])
  {
    if row != [] {
      CountRowZero(row[1..], p);
      assert forall k :: 1 <= k < |row| ==> row[k] == row[1..][k - 1];
    }
  }

  /** First fit finds nothing exactly when no slot at all satisfies the condition. */
  lemma {:induction false} CountZeroIffNoFit<S>(g: seq<seq<S>>, p: S -> bool)
    ensures Count(g, p) == 0 <==> FirstPos(g, p).None?
  {
    if g != [] {
      CountRowZero(g[0], p);
      CountZeroIffNoFit(g[1..], p);
      assert forall q :: InGrid(g[1..], q) ==> At(g[1..], q) == At(g, Pos(q.floor + 1, q.slot));
      forall q | InGrid(g, q) && q.floor > 0
        ensures InGrid(g[1..], Pos(q.floor - 1, q.slot))
      {
      }
    }
  }
}
