/**
 emit_x87_perm_flush: materializing the deferred exchanges by rotating the values along the
 cycles of the permutation.
 */
module PermFlush {
  import opened Words
  import opened X87Model
  import opened X87Deferred
  import opened X87Refinement
  import opened Arm
  import opened Translation
  import opened X87Code

  ghost predicate Inverts(inv: seq<Depth>, perm: Perm) {
    |inv| == 8 && forall k: Depth :: perm[inv[k]] == k && inv[perm[k]] == k
  }

  lemma Inverse(perm: Perm) returns (inv: seq<Depth>)
    ensures Inverts(inv, perm)
  {
    var i0 := PermInverse(perm, 0);
    var i1 := PermInverse(perm, 1);
    var i2 := PermInverse(perm, 2);
    var i3 := PermInverse(perm, 3);
    var i4 := PermInverse(perm, 4);
    var i5 := PermInverse(perm, 5);
    var i6 := PermInverse(perm, 6);
    var i7 := PermInverse(perm, 7);
    inv := [i0, i1, i2, i3, i4, i5, i6, i7];
    forall k: Depth
      ensures perm[inv[k]] == k
    {
    }
  }

  /** ST(k) has its new value where `done`, its old one elsewhere. */
  ghost predicate Partly(now: Slots, st: Slots, t: Depth, perm: Perm, done: seq<bool>)
    requires |done| == 8
  {
    forall k: Depth :: now[Phys(t, k)] == st[Phys(t, if done[k] then perm[k] else k)]
  }

  lemma StoreOne(now: Slots, st: Slots, t: Depth, perm: Perm, done: seq<bool>, j: Depth, v: Word)
    requires |done| == 8 && Partly(now, st, t, perm, done)
    requires v == st[Phys(t, perm[j])]
    ensures Partly(now[Phys(t, j) := v], st, t, perm, done[j := true])
  {
    forall k: Depth | k != j
      ensures Phys(t, k) != Phys(t, j)
    {
      PhysInjective(t, k, j);
    }
    hide Phys;
  }

  lemma AllDone(now: Slots, st: Slots, t: Depth, perm: Perm, done: seq<bool>)
    requires |done| == 8 && Partly(now, st, t, perm, done)
    requires forall k: Depth :: done[k] || perm[k] == k
    ensures now == Permuted(st, t, perm)
  {
    forall k: Depth
      ensures now[k] == Permuted(st, t, perm)[k]
    {
      PhysOnto(t, k);
      var d: Depth := (k - t) % 8;
      assert now[Phys(t, d)] == st[Phys(t, perm[d])];
    }
  }

  /** The cycles finished so far are closed under the permutation, in both directions. */
  ghost predicate Closed(visited: seq<bool>, perm: Perm)
    requires |visited| == 8
  {
    forall k: Depth :: visited[k] <==> visited[perm[k]]
  }

  /** Walking the cycle of i, with j the last register reached. */
  ghost predicate OnCycle(visited: seq<bool>, perm: Perm, inv: seq<Depth>, i: Depth, j: Depth)
    requires |visited| == 8 && |inv| == 8
  {
    && visited[i] && visited[j]
    && (forall k: Depth :: visited[k] && k != j ==> visited[perm[k]])
    && (forall k: Depth :: visited[k] && k != i ==> visited[inv[k]] && inv[k] != j)
  }

  lemma StartCycle(visited: seq<bool>, perm: Perm, inv: seq<Depth>, i: Depth)
    requires |visited| == 8 && Inverts(inv, perm) && Closed(visited, perm) && !visited[i] && perm[i] != i
    ensures OnCycle(visited[i := true], perm, inv, i, i)
  {
    forall k: Depth
      ensures visited[k] ==> visited[inv[k]]
    {
      assert visited[inv[k]] <==> visited[perm[inv[k]]];
    }
  }

  lemma NextOnCycle(visited: seq<bool>, perm: Perm, inv: seq<Depth>, i: Depth, j: Depth)
    requires |visited| == 8 && Inverts(inv, perm) && OnCycle(visited, perm, inv, i, j) && perm[j] != i
    ensures !visited[perm[j]] && OnCycle(visited[perm[j] := true], perm, inv, i, perm[j])
  {
    var next := perm[j];
    assert inv[next] == j;
    assert !visited[next];
    assert forall k: Depth :: visited[k] && k != j ==> perm[k] != next;
  }

  lemma CloseCycle(visited: seq<bool>, perm: Perm, inv: seq<Depth>, i: Depth, j: Depth)
    requires |visited| == 8 && Inverts(inv, perm) && OnCycle(visited, perm, inv, i, j) && perm[j] == i
    ensures Closed(visited, perm)
  {
    forall k: Depth
      ensures visited[k] <==> visited[perm[k]]
    {
      assert inv[perm[k]] == k && inv[i] == j;
    }
  }

  /**
   Each ST(i) receives old ST(perm[i]): the loop over the cycles terminates, and every value is
   moved exactly where the permutation says.
   */
  method EmitPermFlush(r: TranslationResult, base: Reg, top: Reg, tmp: Reg, perm: Perm, stBase: int, save: Reg, chain: Reg,
                       ghost b: Word, ghost m: X87, ghost t: Depth)
    requires r.Valid() && tmp != XZR && tmp !in {base, top} && tmp != stBase && save != chain
    requires Addressable(r.cur, base, stBase, b) && r.cur.x[top] == t && Image(r.cur, b, m)
    modifies r`code, r`cur
    ensures r.Valid()
    ensures Image(r.cur, b, m.(st := Permuted(m.st, t, perm)))
    ensures Keeps(old(r.cur), r.cur, b, {tmp}, {save, chain})
  {
    hide Reaches, Image, Permuted, Phys, Keeps;
    ghost var inv := Inverse(perm);
    var visited := seq(8, k => false);
    ghost var now: Slots := m.st;
    StayedPut(r.cur, b, {tmp}, {save, chain});
    for i := 0 to 8
      invariant r.Valid() && Addressable(r.cur, base, stBase, b) && r.cur.x[top] == t
      invariant Image(r.cur, b, m.(st := now)) && Keeps(old(r.cur), r.cur, b, {tmp}, {save, chain})
      invariant |visited| == 8 && Partly(now, m.st, t, perm, visited) && Closed(visited, perm)
      invariant forall k: Depth :: k < i ==> visited[k] || perm[k] == k
    {
      if !visited[i] && perm[i] != i {
        visited, now := EmitCycle(r, base, top, tmp, perm, stBase, save, chain, visited, i, b, m, t, now, inv, old(r.cur));
      }
    }
    AllDone(now, m.st, t, perm, visited);
  }

  lemma StayedPut(s: State, b: Word, xs: set<Reg>, ds: set<Reg>)
    ensures Keeps(s, s, b, xs, ds)
  {
  }

  lemma Carried(first: State, s: State, t: State, b: Word, base: Reg, top: Reg, stBase: int, tmp: Reg, save: Reg, chain: Reg, ds: set<Reg>)
    requires Keeps(first, s, b, {tmp}, {save, chain}) && Keeps(s, t, b, {tmp}, ds) && ds <= {save, chain}
    requires tmp !in {base, top} && tmp != stBase
    ensures Keeps(first, t, b, {tmp}, {save, chain})
    ensures t.x[top] == s.x[top] && (save !in ds ==> t.d[save] == s.d[save])
    ensures Addressable(s, base, stBase, b) ==> Addressable(t, base, stBase, b)
  {
  }

  ghost function Unvisited(visited: seq<bool>): set<Depth>
    requires |visited| == 8
  {
    set k: Depth | !visited[k]
  }

  lemma VisitOne(visited: seq<bool>, k: Depth)
    requires |visited| == 8
    ensures !visited[k] ==> Unvisited(visited[k := true]) < Unvisited(visited)
  {
    assert !visited[k] ==> k in Unvisited(visited) && k !in Unvisited(visited[k := true]);
  }

  /** ST(j) := ST(next) */
  method EmitMoveOne(r: TranslationResult, base: Reg, top: Reg, tmp: Reg, stBase: int, save: Reg, chain: Reg, j: Depth, next: Depth,
                     ghost b: Word, ghost n: X87, ghost t: Depth, ghost first: State)
    requires r.Valid() && tmp != XZR && tmp !in {base, top} && tmp != stBase && save != chain
    requires Addressable(r.cur, base, stBase, b) && r.cur.x[top] == t && Image(r.cur, b, n)
    requires Keeps(first, r.cur, b, {tmp}, {save, chain})
    modifies r`code, r`cur
    ensures r.Valid() && Addressable(r.cur, base, stBase, b) && r.cur.x[top] == t && r.cur.d[save] == old(r.cur.d[save])
    ensures Image(r.cur, b, n.(st := n.st[Phys(t, j) := n.st[Phys(t, next)]])) && Keeps(first, r.cur, b, {tmp}, {save, chain})
  {
    hide Reaches, Image, Phys, Keeps;
    var key := EmitLoadSt(r, base, top, next, tmp, chain, stBase, b, n, t);
    ghost var u := r.cur;
    Carried(first, old(r.cur), u, b, base, top, stBase, tmp, save, chain, {chain});
    EmitStoreSt(r, base, top, j, tmp, chain, stBase, b, n, t);
    Carried(first, u, r.cur, b, base, top, stBase, tmp, save, chain, {});
  }

  /** Rotate one cycle: ST(i) is saved, each register takes its successor's value, the last takes the saved one. */
  method EmitCycle(r: TranslationResult, base: Reg, top: Reg, tmp: Reg, perm: Perm, stBase: int, save: Reg, chain: Reg,
                   seen: seq<bool>, i: Depth, ghost b: Word, ghost m: X87, ghost t: Depth, ghost before: Slots,
                   ghost inv: seq<Depth>, ghost first: State) returns (visited: seq<bool>, ghost now: Slots)
    requires r.Valid() && tmp != XZR && tmp !in {base, top} && tmp != stBase && save != chain
    requires Addressable(r.cur, base, stBase, b) && r.cur.x[top] == t && Image(r.cur, b, m.(st := before))
    requires Keeps(first, r.cur, b, {tmp}, {save, chain})
    requires |seen| == 8 && Inverts(inv, perm) && Closed(seen, perm) && !seen[i] && perm[i] != i
    requires Partly(before, m.st, t, perm, seen)
    modifies r`code, r`cur
    ensures r.Valid() && Addressable(r.cur, base, stBase, b) && r.cur.x[top] == t
    ensures Image(r.cur, b, m.(st := now)) && Keeps(first, r.cur, b, {tmp}, {save, chain})
    ensures |visited| == 8 && Partly(now, m.st, t, perm, visited) && Closed(visited, perm)
    ensures visited[i] && forall k: Depth :: seen[k] ==> visited[k]
  {
    hide Reaches, Image, Phys, Keeps, Partly, OnCycle, Closed, Addressable, Unvisited;
    now := before;
    ghost var done := seen;
    SavedValue(now, m.st, t, perm, done, i);
    var key := EmitLoadSt(r, base, top, i, tmp, save, stBase, b, m.(st := now), t);
    Carried(first, old(r.cur), r.cur, b, base, top, stBase, tmp, save, chain, {save});
    StartCycle(seen, perm, inv, i);
    visited := seen[i := true];
    var j := i;
    var next := perm[j];
    while next != i
      invariant r.Valid() && Addressable(r.cur, base, stBase, b) && r.cur.x[top] == t && r.cur.d[save] == m.st[Phys(t, i)]
      invariant Image(r.cur, b, m.(st := now)) && Keeps(first, r.cur, b, {tmp}, {save, chain})
      invariant next == perm[j] && |visited| == 8 && |done| == 8 && done[j := true] == visited
      invariant OnCycle(visited, perm, inv, i, j) && Partly(now, m.st, t, perm, done)
      invariant visited[i] && forall k: Depth :: seen[k] ==> visited[k]
      decreases Unvisited(visited)
    {
      VisitOne(visited, next);
      NextOnCycle(visited, perm, inv, i, j);
      SavedValue(now, m.st, t, perm, done, next);
      EmitMoveOne(r, base, top, tmp, stBase, save, chain, j, next, b, m.(st := now), t, first);
      StoreOne(now, m.st, t, perm, done, j, now[Phys(t, next)]);
      now := now[Phys(t, j) := now[Phys(t, next)]];
      done := visited;
      visited := visited[next := true];
      j := next;
      next := perm[j];
    }
    CloseCycle(visited, perm, inv, i, j);
    ghost var v := r.cur;
    EmitStoreSt(r, base, top, j, tmp, save, stBase, b, m.(st := now), t);
    Carried(first, v, r.cur, b, base, top, stBase, tmp, save, chain, {});
    StoreOne(now, m.st, t, perm, done, j, m.st[Phys(t, i)]);
    now := now[Phys(t, j) := m.st[Phys(t, i)]];
  }

  lemma SavedValue(now: Slots, st: Slots, t: Depth, perm: Perm, done: seq<bool>, k: Depth)
    requires |done| == 8 && Partly(now, st, t, perm, done) && !done[k]
    ensures now[Phys(t, k)] == st[Phys(t, k)]
  {
  }
}
