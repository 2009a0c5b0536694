/**
 The tag word as eight base-4 digits, and what AND-NOT and OR with masks of whole digits do to it.
 */
module TagDigits {
  import opened Words
  import opened Bits
  import opened X87Model

  /** The number with the given base-4 digits, lowest first. */
  function Digits(s: seq<Tag>): nat
    decreases |s|
  {
    if s == [] then 0 else s[0] as int + 4 * Digits(s[1..])
  }

  lemma {:induction false} DigitsBound(s: seq<Tag>)
    ensures Digits(s) < Pow2(2 * |s|)
    decreases |s|
  {
    if s != [] {
      DigitsBound(s[1..]);
      assert Pow2(2 * |s|) == 4 * Pow2(2 * |s| - 2);
    }
  }

  predicate IsMask(s: seq<Tag>) {
    forall i :: 0 <= i < |s| ==> s[i] == 0 || s[i] == 3
  }

  /** a with v in the places where the mask has 3. */
  function Select(a: seq<Tag>, mask: seq<Tag>, v: Tag): (r: seq<Tag>)
    requires |a| == |mask|
    ensures |r| == |a|
    ensures forall i :: 0 <= i < |a| ==> r[i] == if mask[i] == 3 then v else a[i]
    decreases |a|
  {
    if a == [] then [] else [if mask[0] == 3 then v else a[0]] + Select(a[1..], mask[1..], v)
  }

  lemma BicDigit(x: Tag, y: nat, m: Tag, n: nat)
    requires m == 0 || m == 3
    ensures Bic(x as int + 4 * y, m as int + 4 * n) == (if m == 3 then 0 else x) as int + 4 * Bic(y, n)
  {
    var a, b := x as int + 4 * y, m as int + 4 * n;
    BicStep(a, b);
    BicStep(a / 2, b / 2);
    hide Bic;
    assert a / 2 / 2 == y && b / 2 / 2 == n;
  }

  lemma OrDigit(x: Tag, y: nat, m: Tag, n: nat)
    requires m == 0 || m == 3
    ensures Or(x as int + 4 * y, m as int + 4 * n) == (if m == 3 then 3 else x) as int + 4 * Or(y, n)
  {
    var a, b := x as int + 4 * y, m as int + 4 * n;
    OrStep(a, b);
    OrStep(a / 2, b / 2);
    hide Or;
    assert a / 2 / 2 == y && b / 2 / 2 == n;
  }

  /** Clearing by a mask of whole digits. */
  lemma {:induction false} BicDigits(a: seq<Tag>, mask: seq<Tag>)
    requires |a| == |mask| && IsMask(mask)
    ensures Bic(Digits(a), Digits(mask)) == Digits(Select(a, mask, 0))
    decreases |a|
  {
    if a != [] {
      BicDigits(a[1..], mask[1..]);
      BicDigit(a[0], Digits(a[1..]), mask[0], Digits(mask[1..]));
      assert Select(a, mask, 0)[1..] == Select(a[1..], mask[1..], 0);
    }
  }

  /** Setting by a mask of whole digits. */
  lemma {:induction false} OrDigits(a: seq<Tag>, mask: seq<Tag>)
    requires |a| == |mask| && IsMask(mask)
    ensures Or(Digits(a), Digits(mask)) == Digits(Select(a, mask, 3))
    decreases |a|
  {
    if a != [] {
      OrDigits(a[1..], mask[1..]);
      OrDigit(a[0], Digits(a[1..]), mask[0], Digits(mask[1..]));
      assert Select(a, mask, 3)[1..] == Select(a[1..], mask[1..], 3);
    }
  }

  function Fill(n: nat, v: Tag): (r: seq<Tag>)
    ensures |r| == n && forall i :: 0 <= i < n ==> r[i] == v
  {
    seq(n, i => v)
  }

  lemma {:induction false} DigitsConcat(a: seq<Tag>, b: seq<Tag>)
    ensures Digits(a + b) == Digits(a) + Shl(Digits(b), 2 * |a|)
    decreases |a|
  {
    if a == [] {
      assert a + b == b;
    } else {
      DigitsConcat(a[1..], b);
      assert (a + b)[1..] == a[1..] + b;
      ShlFour(Digits(b), 2 * |a| - 2);
    }
  }

  lemma ShlFour(v: nat, n: nat)
    ensures Shl(v, n + 2) == 4 * Shl(v, n)
  {
    assert Pow2(n + 2) == 4 * Pow2(n);
  }

  lemma {:induction false} DigitsOfZeros(n: nat)
    ensures Digits(Fill(n, 0)) == 0
  {
    if n > 0 {
      DigitsOfZeros(n - 1);
      assert Fill(n, 0)[1..] == Fill(n - 1, 0);
    }
  }

  lemma {:induction false} DigitsOfThrees(n: nat)
    ensures Digits(Fill(n, 3)) == Pow2(2 * n) - 1
  {
    if n > 0 {
      DigitsOfThrees(n - 1);
      assert Fill(n, 3)[1..] == Fill(n - 1, 3);
      assert Pow2(2 * n) == 4 * Pow2(2 * n - 2);
    }
  }

  /** The mask of `count` digits starting at digit `first`. */
  function Mask(first: nat, count: nat, size: nat): (r: seq<Tag>)
    requires first + count <= size
    ensures |r| == size && IsMask(r)
    ensures forall i :: 0 <= i < size ==> r[i] == if first <= i < first + count then 3 else 0
  {
    Fill(first, 0) + (Fill(count, 3) + Fill(size - first - count, 0))
  }

  lemma MaskValue(first: nat, count: nat, size: nat)
    requires first + count <= size
    ensures Digits(Mask(first, count, size)) == Shl(Pow2(2 * count) - 1, 2 * first)
  {
    DigitsConcat(Fill(count, 3), Fill(size - first - count, 0));
    DigitsConcat(Fill(first, 0), Fill(count, 3) + Fill(size - first - count, 0));
    DigitsOfZeros(first);
    DigitsOfZeros(size - first - count);
    DigitsOfThrees(count);
  }
}
