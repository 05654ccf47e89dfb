/** Integer helpers: the variadic maximum and minimum used by the viewer to clamp column widths. */
module Support {

  /** The left fold that `MaxInt` computes: start with the first element, keep the larger one. */
  function MaxOf(nums: seq<int>): int
    requires |nums| > 0
    decreases |nums|
  {
    if |nums| == 1 then nums[0]
    else
      var v := MaxOf(nums[..|nums| - 1]);
      if nums[|nums| - 1] > v then nums[|nums| - 1] else v
  }

  /** The left fold that `MinInt` computes: start with the first element, keep the smaller one. */
  function MinOf(nums: seq<int>): int
    requires |nums| > 0
    decreases |nums|
  {
    if |nums| == 1 then nums[0]
    else
      var v := MinOf(nums[..|nums| - 1]);
      if nums[|nums| - 1] < v then nums[|nums| - 1] else v
  }

  /** The fold yields an element of the list that is at least every element. */
  lemma {:induction false} MaxOfIsMaximum(nums: seq<int>)
    requires |nums| > 0
    ensures MaxOf(nums) in nums
    ensures forall i :: 0 <= i < |nums| ==> nums[i] <= MaxOf(nums)
    decreases |nums|
  {
    if |nums| > 1 {
      var init := nums[..|nums| - 1];
      MaxOfIsMaximum(init);
      assert forall i :: 0 <= i < |init| ==> init[i] == nums[i];
    }
  }

  /** The fold yields an element of the list that is at most every element. */
  lemma {:induction false} MinOfIsMinimum(nums: seq<int>)
    requires |nums| > 0
    ensures MinOf(nums) in nums
    ensures forall i :: 0 <= i < |nums| ==> MinOf(nums) <= nums[i]
    decreases |nums|
  {
    if |nums| > 1 {
      var init := nums[..|nums| - 1];
      MinOfIsMinimum(init);
      assert forall i :: 0 <= i < |init| ==> init[i] == nums[i];
    }
  }

  /** `MaxInt(nums...)`: indexes `nums[0]`, so the list must not be empty. */
  method MaxInt(nums: seq<int>) returns (v: int)
    requires |nums| > 0
    ensures v == MaxOf(nums)
    ensures v in nums
    ensures forall i :: 0 <= i < |nums| ==> nums[i] <= v
  {
    v := nums[0];
    var i := 1;
    while i < |nums|
      invariant 1 <= i <= |nums|
      invariant v == MaxOf(nums[..i])
    {
      assert nums[..i + 1][..i] == nums[..i];
      if nums[i] > v {
        v := nums[i];
      }
      i := i + 1;
    }
    assert nums[..i] == nums;
    MaxOfIsMaximum(nums);
  }

  /** `MinInt(nums...)`: indexes `nums[0]`, so the list must not be empty. */
  method MinInt(nums: seq<int>) returns (v: int)
    requires |nums| > 0
    ensures v == MinOf(nums)
    ensures v in nums
    ensures forall i :: 0 <= i < |nums| ==> v <= nums[i]
  {
    v := nums[0];
    var i := 1;
    while i < |nums|
      invariant 1 <= i <= |nums|
      invariant v == MinOf(nums[..i])
    {
      assert nums[..i + 1][..i] == nums[..i];
      if nums[i] < v {
        v := nums[i];
      }
      i := i + 1;
    }
    assert nums[..i] == nums;
    MinOfIsMinimum(nums);
  }

  /** The viewer's clamp `MinInt(MaxInt(lo, w, x), hi)` lands in `[lo, hi]` and is `x` when `x` already is. */
  lemma ClampWithin(lo: int, w: int, x: int, hi: int)
    requires lo <= hi
    requires w <= hi
    ensures lo <= MinOf([MaxOf([lo, w, x]), hi]) <= hi
    ensures w <= x <= hi && lo <= x ==> MinOf([MaxOf([lo, w, x]), hi]) == x
  {
    var m := MaxOf([lo, w, x]);
    MaxOfIsMaximum([lo, w, x]);
    MinOfIsMinimum([m, hi]);
    assert [lo, w, x][0] == lo && [lo, w, x][1] == w && [lo, w, x][2] == x;
    assert [m, hi][0] == m && [m, hi][1] == hi;
  }
}
