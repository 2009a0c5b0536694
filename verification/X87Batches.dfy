/**
 Batched pushes and pops: any number of TOP moves followed by one tag update and one store of
 TOP is the same as that many pushes or pops written through one by one.
 */
module X87Batches {
  import opened Words
  import opened X87Model
  import opened Arm
  import opened Translation
  import opened X87Code

  function PushTimes(m: X87, k: nat): X87 {
    if k == 0 then m else Push(PushTimes(m, k - 1))
  }

  function PopTimes(m: X87, k: nat): X87 {
    if k == 0 then m else Pop(PopTimes(m, k - 1))
  }

  lemma ArcGrowsDown(k: Depth, first: int, n: nat)
    requires n < 8
    ensures InArc(k, first - 1, n + 1) <==> k == (first - 1) % 8 || InArc(k, first, n)
  {
    var d := (k - first) % 8;
    assert (k - (first - 1)) % 8 == (d + 1) % 8;
  }

  lemma TagsGrowDown(tags: Tags, first: int, n: nat, v: Tag)
    requires n < 8
    ensures SetTags(tags, first, n, v)[(first - 1) % 8 := v] == SetTags(tags, first - 1, n + 1, v)
  {
    forall k: Depth
      ensures InArc(k, first - 1, n + 1) <==> k == (first - 1) % 8 || InArc(k, first, n)
    {
      ArcGrowsDown(k, first, n);
    }
    hide InArc;
  }

  lemma ModDec(a: int)
    ensures Dec(a % 8) == (a - 1) % 8 && Inc(a % 8) == (a + 1) % 8
  {
  }

  /** k pushes written through: TOP moves down by k, and the k registers from there are valid. */
  lemma {:induction false} PushTimesIs(m: X87, k: nat)
    requires k <= 8
    ensures PushTimes(m, k) == m.(sw := m.sw.(top := (m.sw.top - k) % 8), tags := SetTags(m.tags, m.sw.top - k, k, VALID))
  {
    if k == 0 {
      SetTagsNone(m.tags, m.sw.top, VALID);
    } else {
      PushTimesIs(m, k - 1);
      TagsGrowDown(m.tags, m.sw.top - (k - 1), k - 1, VALID);
      ModDec(m.sw.top - (k - 1));
      hide SetTags, Dec;
      assert m.sw.top - (k - 1) - 1 == m.sw.top - k;
    }
  }

  /** k pops written through, for any k. */
  lemma {:induction false} PopTimesIs(m: X87, k: nat)
    ensures PopTimes(m, k) == m.(sw := m.sw.(top := (m.sw.top + k) % 8), tags := SetTags(m.tags, m.sw.top, k, EMPTY))
  {
    if k == 0 {
      SetTagsNone(m.tags, m.sw.top, EMPTY);
    } else {
      PopTimesIs(m, k - 1);
      SetTagsStep(m.tags, m.sw.top, k - 1, EMPTY);
      ModDec(m.sw.top + k - 1);
      hide SetTags, Inc;
    }
  }

  lemma SameArc(k: Depth, first: int, n: nat)
    ensures InArc(k, first % 8, n) <==> InArc(k, first, n)
  {
    var q := first / 8;
    assert k - first == k - first % 8 - 8 * q;
    assert (k - first % 8 - 8 * q) % 8 == (k - first % 8) % 8;
  }

  lemma SameTags(tags: Tags, first: int, n: nat, v: Tag)
    ensures SetTags(tags, first % 8, n, v) == SetTags(tags, first, n, v)
  {
    forall k: Depth
      ensures InArc(k, first % 8, n) <==> InArc(k, first, n)
    {
      SameArc(k, first, n);
    }
    hide InArc;
  }

  /** TOP moves k times in its register; memory does not change. */
  method EmitMoves(r: TranslationResult, up: bool, k: Imm12, top: Reg, ghost t: Depth)
    requires r.Valid() && top != XZR && r.cur.x[top] == t
    modifies r`code, r`cur
    ensures r.Valid() && r.cur == SetX(old(r.cur), top, (if up then t + k else t - k) % 8)
  {
    hide Step, Exec, Reaches;
    assert r.cur.x[top := t as Word] == r.cur.x;
    for i := 0 to k
      invariant r.Valid() && r.cur == SetX(old(r.cur), top, (if up then t + i else t - i) % 8)
    {
      MovedOnce(t, i);
      EmitMoveTop(r, up, 1, top, (if up then t + i else t - i) % 8);
    }
  }

  lemma MovedOnce(t: Depth, i: nat)
    ensures ((t + i) % 8 + 1) % 8 == (t + i + 1) % 8 && ((t - i) % 8 - 1) % 8 == (t - i - 1) % 8
  {
    AddToMod(t + i, 1);
    AddToMod(t - i, -1);
  }

  lemma AddToMod(a: int, b: int)
    ensures (a % 8 + b) % 8 == (a + b) % 8
  {
    var q := a / 8;
    assert a + b == (a % 8 + b) + 8 * q;
  }

  lemma TopMoved(s: State, u: State, b: Word, m: X87, top: Reg, v: Word)
    requires Image(s, b, m) && u == SetX(s, top, v)
    ensures Image(u, b, m) && Keeps(s, u, b, {top}, {})
  {
    hide EncodeSw, EncodeTags;
  }

  /** Deferred pushes and their flush. */
  method EmitPushBatch(r: TranslationResult, base: Reg, top: Reg, tmp: Reg, tmp2: Reg, tagw: Reg, k: Imm12, ghost b: Word, ghost m: X87)
    requires r.Valid() && XZR !in {top, tmp, tmp2, tagw} && Distinct(base, top, tmp, tmp2, tagw) && 1 <= k <= 8
    requires Image(r.cur, b, m) && r.cur.x[base] == b && r.cur.x[top] == m.sw.top
    modifies r`code, r`cur
    ensures r.Valid() && Image(r.cur, b, PushTimes(m, k)) && r.cur.x[top] == PushTimes(m, k).sw.top
    ensures Keeps(old(r.cur), r.cur, b, {top, tmp, tmp2, tagw}, {})
  {
    hide Step, Exec, Reaches, Image, SetTags;
    ghost var t: Depth := (m.sw.top - k) % 8;
    PushTimesIs(m, k);
    SameTags(m.tags, m.sw.top - k, k, VALID);
    EmitMoves(r, false, k, top, m.sw.top);
    TopMoved(old(r.cur), r.cur, b, m, top, t);
    EmitTagSetValidBatch(r, base, top, tmp, tmp2, tagw, k, b, m, t);
    EmitStoreTop(r, base, top, tmp, b, m.(tags := SetTags(m.tags, t, k, VALID)), t);
  }

  /** Deferred pops and their flush. */
  method EmitPopBatch(r: TranslationResult, base: Reg, top: Reg, tmp: Reg, tmp2: Reg, tagw: Reg, k: Imm12, ghost b: Word, ghost m: X87)
    requires r.Valid() && XZR !in {top, tmp, tmp2, tagw} && Distinct(base, top, tmp, tmp2, tagw)
    requires Image(r.cur, b, m) && r.cur.x[base] == b && r.cur.x[top] == m.sw.top
    modifies r`code, r`cur
    ensures r.Valid() && Image(r.cur, b, PopTimes(m, k)) && r.cur.x[top] == PopTimes(m, k).sw.top
    ensures Keeps(old(r.cur), r.cur, b, {top, tmp, tmp2, tagw}, {})
  {
    hide Step, Exec, Reaches, Image, SetTags;
    ghost var t: Depth := (m.sw.top + k) % 8;
    PopTimesIs(m, k);
    EmptyBelow(m.tags, m.sw.top, k);
    EmitMoves(r, true, k, top, m.sw.top);
    TopMoved(old(r.cur), r.cur, b, m, top, t);
    EmitTagSetEmptyBatch(r, base, top, tmp, tmp2, tagw, k, b, m, t);
    EmitStoreTop(r, base, top, tmp, b, m.(tags := SetTags(m.tags, t - k, k, EMPTY)), t);
  }

  /** The k registers below the new TOP are the k registers from the old one. */
  lemma EmptyBelow(tags: Tags, t: Depth, k: nat)
    ensures SetTags(tags, (t + k) % 8 - k, k, EMPTY) == SetTags(tags, t, k, EMPTY)
  {
    SameTags(tags, (t + k) % 8 - k, k, EMPTY);
    SameTags(tags, t, k, EMPTY);
    assert ((t + k) % 8 - k) % 8 == t;
    hide SetTags;
  }
}
