/** Merging address ranges that lie close together (_coalesce_ranges of the IDA loader). */
module Coalesce {
  const COALESCE_GAP: int := 0x10_0000

  /** From start to end; nothing says that end is not before start. */
  datatype Range = Range(start: int, end: int)

  function Max(a: int, b: int): int { if a < b then b else a }

  predicate Sorted(rs: seq<Range>) {
    forall i, j :: 0 <= i < j < |rs| ==> rs[i].start <= rs[j].start
  }

  predicate Proper(rs: seq<Range>) {
    forall i :: 0 <= i < |rs| ==> rs[i].start <= rs[i].end
  }

  /** r lies within m. */
  predicate Inside(r: Range, m: Range) {
    m.start <= r.start && r.end <= m.end
  }

  /** Neighbours are more than the gap apart. */
  predicate Apart(ms: seq<Range>) {
    forall i, j :: 0 <= i < j < |ms| ==> ms[i].end + COALESCE_GAP < ms[j].start
  }

  /** Some input within m goes beyond x and begins at most the gap after it. */
  predicate Reached(x: int, rs: seq<Range>, m: Range) {
    exists k :: 0 <= k < |rs| && Inside(rs[k], m) && rs[k].start <= x + COALESCE_GAP && x < rs[k].end
  }

  /** m is held together by inputs: it begins and ends with one, and no hole in it exceeds the gap. */
  ghost predicate Joined(m: Range, rs: seq<Range>) {
    && m.start <= m.end
    && (exists k :: 0 <= k < |rs| && rs[k].start == m.start)
    && (exists k :: 0 <= k < |rs| && rs[k].end == m.end)
    && forall x :: m.start <= x < m.end ==> Reached(x, rs, m)
  }

  ghost predicate Covered(r: Range, ms: seq<Range>) {
    exists j :: 0 <= j < |ms| && Inside(r, ms[j])
  }

  ghost predicate AllJoined(ms: seq<Range>, rs: seq<Range>) {
    forall j :: 0 <= j < |ms| ==> Joined(ms[j], rs)
  }

  ghost predicate AllCovered(rs: seq<Range>, ms: seq<Range>) {
    forall i :: 0 <= i < |rs| ==> Covered(rs[i], ms)
  }

  /** ms is rs coalesced. */
  ghost predicate Merged(rs: seq<Range>, ms: seq<Range>) {
    Apart(ms) && Proper(ms) && AllJoined(ms, rs) && AllCovered(rs, ms)
  }

  // ---------------------------------------------------------------- one step

  lemma JoinedLater(m: Range, rs: seq<Range>, r: Range)
    requires Joined(m, rs)
    ensures Joined(m, rs + [r])
  {
    var t := rs + [r];
    var a :| 0 <= a < |rs| && rs[a].start == m.start;
    var b :| 0 <= b < |rs| && rs[b].end == m.end;
    assert t[a].start == m.start && t[b].end == m.end;
    forall x | m.start <= x < m.end
      ensures Reached(x, t, m)
    {
      assert Reached(x, rs, m);
      var k :| 0 <= k < |rs| && Inside(rs[k], m) && rs[k].start <= x + COALESCE_GAP && x < rs[k].end;
      assert t[k] == rs[k];
    }
  }

  lemma Alone(rs: seq<Range>, r: Range)
    requires r.start <= r.end
    ensures Joined(r, rs + [r])
  {
    var t := rs + [r];
    assert t[|rs|] == r;
    forall x | r.start <= x < r.end
      ensures Reached(x, t, r)
    {
      assert Inside(t[|rs|], r);
    }
  }

  /** A range that begins within the gap joins the last one. */
  lemma Extended(m: Range, rs: seq<Range>, r: Range)
    requires Joined(m, rs) && m.start <= r.start <= r.end && r.start <= m.end + COALESCE_GAP
    ensures Joined(Range(m.start, Max(m.end, r.end)), rs + [r])
  {
    var t, n := rs + [r], Range(m.start, Max(m.end, r.end));
    JoinedLater(m, rs, r);
    assert t[|rs|] == r && Inside(r, n);
    forall x | n.start <= x < n.end
      ensures Reached(x, t, n)
    {
      if x < m.end {
        assert Reached(x, t, m);
        var k :| 0 <= k < |t| && Inside(t[k], m) && t[k].start <= x + COALESCE_GAP && x < t[k].end;
        assert Inside(t[k], n);
      } else {
        assert Inside(t[|rs|], n);
      }
    }
  }

  lemma JoinedAppended(ms: seq<Range>, rs: seq<Range>, r: Range)
    requires AllJoined(ms, rs)
    ensures AllJoined(ms, rs + [r])
  {
    forall j | 0 <= j < |ms|
      ensures Joined(ms[j], rs + [r])
    {
      JoinedLater(ms[j], rs, r);
    }
  }

  lemma JoinedLast(ms: seq<Range>, m: Range, rs: seq<Range>)
    requires AllJoined(ms, rs) && Joined(m, rs)
    ensures AllJoined(ms + [m], rs)
  {
    hide Joined;
  }

  lemma CoveredLater(rs: seq<Range>, ms: seq<Range>, ns: seq<Range>)
    requires AllCovered(rs, ms) && |ms| <= |ns|
    requires forall j :: 0 <= j < |ms| ==> ns[j].start == ms[j].start && ms[j].end <= ns[j].end
    ensures AllCovered(rs, ns)
  {
    forall i | 0 <= i < |rs|
      ensures Covered(rs[i], ns)
    {
      assert Covered(rs[i], ms);
      var j :| 0 <= j < |ms| && Inside(rs[i], ms[j]);
      assert Inside(rs[i], ns[j]);
    }
  }

  lemma CoveredLast(rs: seq<Range>, ms: seq<Range>, r: Range)
    requires AllCovered(rs, ms) && ms != [] && Inside(r, ms[|ms| - 1])
    ensures AllCovered(rs + [r], ms)
  {
    assert Covered(r, ms);
    hide Covered;
  }

  lemma ApartLast(ms: seq<Range>, m: Range)
    requires Apart(ms) && Proper(ms) && ms != [] && ms[|ms| - 1].end + COALESCE_GAP < m.start <= m.end
    ensures Apart(ms + [m]) && Proper(ms + [m])
  {
    var ns, l := ms + [m], |ms| - 1;
    forall i, j | 0 <= i < j < |ns|
      ensures ns[i].end + COALESCE_GAP < ns[j].start
    {
      if j == |ms| && i < l {
        assert ms[i].end + COALESCE_GAP < ms[l].start <= ms[l].end;
      }
    }
  }

  lemma Appended(rs: seq<Range>, ms: seq<Range>, r: Range)
    requires Merged(rs, ms) && ms != [] && r.start <= r.end && ms[|ms| - 1].end + COALESCE_GAP < r.start
    ensures Merged(rs + [r], ms + [r])
  {
    hide Joined, AllJoined, AllCovered, Apart, Proper;
    ApartLast(ms, r);
    JoinedAppended(ms, rs, r);
    Alone(rs, r);
    JoinedLast(ms, r, rs + [r]);
    CoveredLater(rs, ms, ms + [r]);
    CoveredLast(rs, ms + [r], r);
  }

  lemma JoinedInit(ms: seq<Range>, rs: seq<Range>)
    requires AllJoined(ms, rs) && ms != []
    ensures Joined(ms[|ms| - 1], rs) && AllJoined(ms[..|ms| - 1], rs)
  {
    hide Joined;
  }

  lemma ApartWidened(ms: seq<Range>, n: Range)
    requires Apart(ms) && Proper(ms) && ms != [] && n.start == ms[|ms| - 1].start && n.start <= n.end
    ensures Apart(ms[|ms| - 1 := n]) && Proper(ms[|ms| - 1 := n])
  {
  }

  lemma Widened(rs: seq<Range>, ms: seq<Range>, r: Range)
    requires Merged(rs, ms) && ms != [] && r.start <= r.end
    requires ms[|ms| - 1].start <= r.start <= ms[|ms| - 1].end + COALESCE_GAP
    ensures var m := ms[|ms| - 1];
      Merged(rs + [r], ms[|ms| - 1 := Range(m.start, Max(m.end, r.end))])
  {
    hide Joined, AllJoined, AllCovered, Apart, Proper;
    var l := |ms| - 1;
    var m := ms[l];
    var n := Range(m.start, Max(m.end, r.end));
    assert ms[l := n] == ms[..l] + [n];
    JoinedInit(ms, rs);
    ApartWidened(ms, n);
    Extended(m, rs, r);
    JoinedAppended(ms[..l], rs, r);
    JoinedLast(ms[..l], n, rs + [r]);
    CoveredLater(rs, ms, ms[l := n]);
    CoveredLast(rs, ms[l := n], r);
  }

  lemma First(r: Range)
    requires r.start <= r.end
    ensures Merged([r], [r])
  {
    Alone([], r);
    assert [] + [r] == [r];
    hide Joined;
    assert Inside([r][0], [r][0]);
  }

  lemma Nothing()
    ensures Merged([], [])
  {
    hide Joined, Covered;
  }

  lemma InOrder(rs: seq<Range>, i: nat)
    requires Sorted(rs) && Proper(rs) && i < |rs|
    ensures rs[i].start <= rs[i].end && (i > 0 ==> rs[i - 1].start <= rs[i].start)
  {
  }

  /** The ranges of the output are in order, far apart, and each input lies in one of them. */
  method CoalesceRanges(rs: seq<Range>) returns (ms: seq<Range>)
    requires Sorted(rs) && Proper(rs)
    ensures Merged(rs, ms) && (ms == [] <==> rs == [])
  {
    hide Merged, Sorted, Proper;
    if rs == [] {
      Nothing();
      return [];
    }
    ms := [rs[0]];
    InOrder(rs, 0);
    First(rs[0]);
    assert rs[..1] == [rs[0]];
    for i := 1 to |rs|
      invariant ms != [] && Merged(rs[..i], ms)
      invariant ms[|ms| - 1].start <= rs[i - 1].start
    {
      var last := ms[|ms| - 1];
      InOrder(rs, i);
      assert rs[..i] + [rs[i]] == rs[..i + 1];
      if rs[i].start <= last.end + COALESCE_GAP {
        Widened(rs[..i], ms, rs[i]);
        ms := ms[|ms| - 1 := Range(last.start, Max(last.end, rs[i].end))];
      } else {
        Appended(rs[..i], ms, rs[i]);
        ms := ms + [rs[i]];
      }
    }
    assert rs[..|rs|] == rs;
  }

  /** Exactly one. */
  lemma CoveredOnce(rs: seq<Range>, ms: seq<Range>, i: nat, j: nat, k: nat)
    requires Merged(rs, ms) && Proper(rs) && i < |rs| && j < |ms| && k < |ms|
    requires Inside(rs[i], ms[j]) && Inside(rs[i], ms[k])
    ensures j == k
  {
    hide AllJoined, AllCovered;
  }

  // ---------------------------------------------------------------- there is only one result

  /** Of two ranges of a result, one is far before the other or they are the same. */
  lemma FarApart(ms: seq<Range>, i: nat, j: nat)
    requires Apart(ms) && Proper(ms) && i < |ms| && j < |ms|
    ensures ms[i].start <= ms[i].end
    ensures i < j ==> ms[i].end + COALESCE_GAP < ms[j].start
    ensures j < i ==> ms[j].end + COALESCE_GAP < ms[i].start
  {
  }

  lemma ProperAt(rs: seq<Range>, i: nat)
    requires Proper(rs) && i < |rs|
    ensures rs[i].start <= rs[i].end
  {
  }

  /** A range of one result lies within a range of the other. */
  lemma Contained(rs: seq<Range>, a: seq<Range>, b: seq<Range>, j: nat) returns (k: nat)
    requires Proper(rs) && Merged(rs, a) && Merged(rs, b) && j < |a|
    ensures k < |b| && Inside(a[j], b[k])
  {
    hide AllJoined, AllCovered, Apart, Proper;
    var p := StartInput(rs, a, j);
    ProperAt(rs, p);
    k := CoveredBy(rs, b, p);
    if a[j].end > b[k].end {
      var q := Beyond(rs, a, j, b[k].end);
      ProperAt(rs, q);
      var l := CoveredBy(rs, b, q);
      FarApart(b, k, l);
    }
  }

  lemma StartInput(rs: seq<Range>, a: seq<Range>, j: nat) returns (p: nat)
    requires AllJoined(a, rs) && j < |a|
    ensures p < |rs| && rs[p].start == a[j].start
  {
    assert Joined(a[j], rs);
    p :| 0 <= p < |rs| && rs[p].start == a[j].start;
  }

  lemma CoveredBy(rs: seq<Range>, b: seq<Range>, p: nat) returns (k: nat)
    requires AllCovered(rs, b) && p < |rs|
    ensures k < |b| && Inside(rs[p], b[k])
  {
    assert Covered(rs[p], b);
    k :| 0 <= k < |b| && Inside(rs[p], b[k]);
  }

  lemma Beyond(rs: seq<Range>, a: seq<Range>, j: nat, x: int) returns (q: nat)
    requires AllJoined(a, rs) && j < |a| && a[j].start <= x < a[j].end
    ensures q < |rs| && Inside(rs[q], a[j]) && rs[q].start <= x + COALESCE_GAP && x < rs[q].end
  {
    assert Joined(a[j], rs);
    assert Reached(x, rs, a[j]);
    q :| 0 <= q < |rs| && Inside(rs[q], a[j]) && rs[q].start <= x + COALESCE_GAP && x < rs[q].end;
  }

  /** It is that range. */
  lemma Same(rs: seq<Range>, a: seq<Range>, b: seq<Range>, j: nat) returns (k: nat)
    requires Proper(rs) && Merged(rs, a) && Merged(rs, b) && j < |a|
    ensures k < |b| && a[j] == b[k]
  {
    hide AllJoined, AllCovered, Apart, Proper;
    k := Contained(rs, a, b, j);
    var i := Contained(rs, b, a, k);
    FarApart(a, i, j);
    FarApart(a, j, j);
  }

  lemma {:induction false} SamePrefix(rs: seq<Range>, a: seq<Range>, b: seq<Range>, n: nat)
    requires Proper(rs) && Merged(rs, a) && Merged(rs, b) && n <= |a|
    ensures n <= |b| && a[..n] == b[..n]
  {
    hide AllJoined, AllCovered, Apart, Proper;
    if n > 0 {
      var m := n - 1;
      SamePrefix(rs, a, b, m);
      var k := Same(rs, a, b, m);
      SameHere(rs, a, b, m, k);
      assert a[..n] == a[..m] + [a[m]] && b[..n] == b[..m] + [b[m]];
    }
  }

  /** With equal ranges before it, a range cannot be found anywhere else. */
  lemma SameHere(rs: seq<Range>, a: seq<Range>, b: seq<Range>, m: nat, k: nat)
    requires Proper(rs) && Merged(rs, a) && Merged(rs, b) && m < |a| && k < |b| && m <= |b|
    requires a[..m] == b[..m] && a[m] == b[k]
    ensures k == m
  {
    hide AllJoined, AllCovered, Apart, Proper;
    FarApart(a, m, m);
    if k < m {
      assert b[..m][k] == a[..m][k];
      FarApart(a, k, m);
    } else if k > m {
      var l := Same(rs, b, a, m);
      FarApart(b, m, k);
      if l < m {
        assert b[..m][l] == a[..m][l];
        FarApart(b, l, m);
      } else {
        FarApart(a, m, l);
      }
    }
  }

  /** The properties of the output determine it. */
  lemma MergedOnce(rs: seq<Range>, a: seq<Range>, b: seq<Range>)
    requires Proper(rs) && Merged(rs, a) && Merged(rs, b)
    ensures a == b
  {
    hide Merged, Proper;
    SamePrefix(rs, a, b, |a|);
    SamePrefix(rs, b, a, |b|);
  }

  lemma PairProper(r: Range, t: Range)
    requires r.start <= r.end && t.start <= t.end
    ensures Proper([r, t])
  {
  }

  /** Two ranges become one exactly if the second begins at most 0x100000 after the end of the first. */
  lemma TwoRanges(r: Range, t: Range, ms: seq<Range>)
    requires r.start <= r.end && t.start <= t.end && r.start <= t.start && Merged([r, t], ms)
    ensures ms == if t.start <= r.end + 0x10_0000 then [Range(r.start, if r.end < t.end then t.end else r.end)] else [r, t]
  {
    hide Merged, Proper;
    PairProper(r, t);
    First(r);
    assert [r] + [t] == [r, t];
    var ns := [r, t];
    if t.start <= r.end + 0x10_0000 {
      Widened([r], [r], t);
      ns := [Range(r.start, Max(r.end, t.end))];
      assert [r][0 := ns[0]] == ns;
    } else {
      Appended([r], [r], t);
    }
    MergedOnce([r, t], ms, ns);
  }
}
