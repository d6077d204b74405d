/**
 * The tier engine of the order form: which sizes a shape offers, what the
 * tier list becomes when the shape, the tier count or one tier's size
 * changes, and which sizes the dropdown of a tier offers.
 *
 * Each handler is a method that builds the new list the way the form does
 * (a filled array rewritten by a loop, a copied list grown by a loop, a
 * copied array repaired in place) and is proved equal to a specification
 * function; the lemmas state what those functions guarantee.
 */
module Tiers {
  import opened Wrappers
  import opened SizeTokens
  import opened Types
  import opened Constants

  /** `getSizesForShape`: the shape's size vocabulary, largest first. */
  function SizesForShape(shape: CakeShape): seq<SizeToken> {
    match shape
    case Round => RoundSizes
    case Square => SquareSizes
    case Rectangle => RectangleSizes
    case Heart => HeartSizes
  }

  /**
   * Every vocabulary has at least three entries; all but the rectangle's are
   * plain numbers, strictly descending; only the rectangle offers "Jiné".
   */
  lemma SizesForShapeSpec(shape: CakeShape)
    ensures var v := SizesForShape(shape);
      && 3 <= |v|
      && (shape != Rectangle ==> StrictlyDescending(v) && AllNumeric(v))
      && (shape == Rectangle <==> Jine in v)
  {
    NumericVocabulariesDescend();
  }

  /** The smallest (last) entry of a vocabulary. */
  function Smallest(v: seq<SizeToken>): SizeToken
    requires v != []
  {
    v[|v| - 1]
  }

  /** `v.indexOf(t)`: the first position of `t` in `v`, or -1 when it does not occur. */
  function IndexOf(v: seq<SizeToken>, t: SizeToken): (r: int)
    ensures -1 <= r < |v|
    ensures r == -1 <==> t !in v
    ensures 0 <= r ==> v[r] == t && t !in v[..r]
  {
    if v == [] then -1
    else if v[0] == t then 0
    else
      var k := IndexOf(v[1..], t);
      assert k >= 0 ==> v[..k + 1] == [v[0]] + v[1..][..k];
      if k == -1 then -1 else k + 1
  }

  /** In a strictly descending vocabulary every entry sits at its own position. */
  lemma IndexOfDescending(v: seq<SizeToken>, i: int)
    requires StrictlyDescending(v) && 0 <= i < |v|
    ensures IndexOf(v, v[i]) == i
  {
  }

  // ---------------------------------------------------------------- shape change

  /**
   * The tier sizes `handleShapeChange` writes: every tier gets the largest
   * size, except that several tiers of a shape other than the rectangle get
   * the vocabulary's first entries in order.
   */
  function ShapeDefaults(shape: CakeShape, tiers: TierCount): seq<SizeToken> {
    var v := SizesForShape(shape);
    seq(tiers, i requires 0 <= i < tiers => if tiers > 1 && shape != Rectangle && i < |v| then v[i] else v[0])
  }

  /**
   * After a shape change there are exactly `tiers` sizes, all from the new
   * vocabulary: its first `tiers` entries (so strictly descending) for a
   * shape other than the rectangle, otherwise the largest entry repeated.
   */
  lemma ShapeDefaultsSpec(shape: CakeShape, tiers: TierCount)
    ensures var r := ShapeDefaults(shape, tiers);
      && |r| == tiers
      && (forall i :: 0 <= i < |r| ==> r[i] in SizesForShape(shape))
      && (shape != Rectangle ==> r == SizesForShape(shape)[..tiers] && StrictlyDescending(r))
      && (shape == Rectangle ==> forall i :: 0 <= i < |r| ==> r[i] == SizesForShape(shape)[0])
  {
    var r, v := ShapeDefaults(shape, tiers), SizesForShape(shape);
    SizesForShapeSpec(shape);
    if shape != Rectangle {
      assert r == v[..tiers];
    }
  }

  /** `handleShapeChange`'s computation of `newTierSizes`. */
  method NewTierSizes(shape: CakeShape, tiers: TierCount) returns (r: seq<SizeToken>)
    ensures r == ShapeDefaults(shape, tiers)
  {
    var defaultSize := SizesForShape(shape)[0];
    var newTierSizes := new SizeToken[tiers](_ => defaultSize);
    if tiers > 1 && shape != Rectangle {
      var available := SizesForShape(shape);
      SizesForShapeSpec(shape);
      for i := 0 to tiers
        invariant forall j :: 0 <= j < i ==> newTierSizes[j] == ShapeDefaults(shape, tiers)[j]
        invariant forall j :: i <= j < tiers ==> newTierSizes[j] == defaultSize
      {
        if i < |available| {
          newTierSizes[i] := available[i];
        }
      }
    }
    r := newTierSizes[..];
  }

  // ---------------------------------------------------------------- tier count

  function LastOf(s: seq<SizeToken>): Option<SizeToken> {
    if s == [] then None else Some(s[|s| - 1])
  }

  /**
   * The size given to a newly added tier: the vocabulary entry after `last`,
   * or the vocabulary's smallest entry when `last` is missing, not in the
   * vocabulary, or already the smallest.
   */
  function NextTierSize(v: seq<SizeToken>, last: Option<SizeToken>): SizeToken
    requires v != []
  {
    var i := if last.Some? then IndexOf(v, last.value) else -1;
    if i != -1 && i + 1 < |v| then v[i + 1] else Smallest(v)
  }

  /**
   * In a strictly descending vocabulary the added size is the largest entry
   * strictly smaller than `last`; if there is none, it is the smallest entry.
   */
  lemma NextTierSizeIsNextSmaller(v: seq<SizeToken>, last: SizeToken)
    requires StrictlyDescending(v) && last in v
    ensures var r := NextTierSize(v, Some(last));
      && r in v
      && (last != Smallest(v) ==> Less(r, last) && forall t :: t in v && Less(t, last) ==> t == r || Less(t, r))
      && (last == Smallest(v) ==> r == last)
  {
    var i := IndexOf(v, last);
    if i + 1 < |v| {
      forall t | t in v && Less(t, last) ensures t == v[i + 1] || Less(t, v[i + 1]) {
        var j :| 0 <= j < |v| && v[j] == t;
        if j > i + 1 {
          assert Less(v[j], v[i + 1]);
        }
      }
    } else {
      assert last == Smallest(v);
    }
    if last == Smallest(v) {
      IndexOfDescending(v, |v| - 1);
    }
  }

  /** The list `s` extended one tier at a time, each new tier sized by `NextTierSize` from the one before it. */
  function Grow(v: seq<SizeToken>, s: seq<SizeToken>, count: nat): (r: seq<SizeToken>)
    requires v != [] && |s| <= count
    ensures |r| == count && r[..|s|] == s
    ensures |s| == 0 < count ==> r[0] == NextTierSize(v, None)
    ensures forall i :: |s| <= i < count && 0 < i ==> r[i] == NextTierSize(v, Some(r[i - 1]))
    decreases count
  {
    if count == |s| then s
    else
      var p := Grow(v, s, count - 1);
      var r := p + [NextTierSize(v, LastOf(p))];
      assert r[..count - 1] == p;
      r
  }

  /** The tier sizes `handleTierCountChange(count)` stores: grown to `count`, or cut to the first `count`. */
  function TierCountResult(shape: CakeShape, sizes: seq<SizeToken>, count: TierCount): seq<SizeToken> {
    if count > |sizes| then Grow(SizesForShape(shape), sizes, count) else sizes[..count]
  }

  /**
   * A tier-count change yields exactly `count` sizes, keeps the existing ones
   * that fit, and sizes each added tier by `NextTierSize` from the one below;
   * sizes from the vocabulary stay in the vocabulary.
   */
  lemma TierCountSpec(shape: CakeShape, sizes: seq<SizeToken>, count: TierCount)
    ensures var r, v := TierCountResult(shape, sizes, count), SizesForShape(shape);
      && |r| == count
      && (count <= |sizes| ==> r == sizes[..count])
      && (count > |sizes| ==> r[..|sizes|] == sizes)
      && (sizes == [] ==> r[0] == Smallest(v))
      && (forall i :: |sizes| <= i < count && 0 < i ==> r[i] == NextTierSize(v, Some(r[i - 1])))
      && ((forall t :: t in sizes ==> t in v) ==> forall t :: t in r ==> t in v)
  {
    var v := SizesForShape(shape);
    if (forall t :: t in sizes ==> t in v) && count > |sizes| {
      GrowMembers(v, sizes, count);
    }
  }

  /** Growing a list of vocabulary sizes only adds vocabulary sizes. */
  lemma {:induction false} GrowMembers(v: seq<SizeToken>, s: seq<SizeToken>, count: nat)
    requires v != [] && |s| <= count
    requires forall t :: t in s ==> t in v
    ensures forall t :: t in Grow(v, s, count) ==> t in v
    decreases count
  {
    if count > |s| {
      GrowMembers(v, s, count - 1);
      GrowStep(v, s, count - 1);
      var p := Grow(v, s, count - 1);
      assert NextTierSize(v, LastOf(p)) in v;
      assert forall t :: t in Grow(v, s, count) ==> t in p || t == NextTierSize(v, LastOf(p));
    }
  }

  /**
   * Added tiers step down the vocabulary: each is strictly smaller than the
   * tier below it unless that one is already the smallest size.
   */
  lemma GrowthDescends(shape: CakeShape, sizes: seq<SizeToken>, count: TierCount)
    requires shape != Rectangle && sizes != []
    requires forall t :: t in sizes ==> t in SizesForShape(shape)
    ensures var r, v := TierCountResult(shape, sizes, count), SizesForShape(shape);
      forall i :: |sizes| <= i < count ==> Less(r[i], r[i - 1]) || r[i - 1] == Smallest(v)
  {
    var r, v := TierCountResult(shape, sizes, count), SizesForShape(shape);
    SizesForShapeSpec(shape);
    TierCountSpec(shape, sizes, count);
    forall i | |sizes| <= i < count ensures Less(r[i], r[i - 1]) || r[i - 1] == Smallest(v) {
      assert r[i - 1] in r;
      NextTierSizeIsNextSmaller(v, r[i - 1]);
    }
  }

  /** `handleTierCountChange`'s computation of the new list. */
  method ResizeTiers(shape: CakeShape, sizes: seq<SizeToken>, count: TierCount) returns (r: seq<SizeToken>)
    ensures r == TierCountResult(shape, sizes, count)
  {
    if count > |sizes| {
      var available := SizesForShape(shape);
      SizesForShapeSpec(shape);
      r := AddTiers(available, sizes, count);
    } else {
      r := sizes[..count];
    }
  }

  /** The loop of `handleTierCountChange` that appends tiers until there are `count` of them. */
  method AddTiers(available: seq<SizeToken>, sizes: seq<SizeToken>, count: nat) returns (currentSizes: seq<SizeToken>)
    requires available != [] && |sizes| <= count
    ensures currentSizes == Grow(available, sizes, count)
  {
    currentSizes := sizes;
    while |currentSizes| < count
      invariant |sizes| <= |currentSizes| <= count
      invariant currentSizes == Grow(available, sizes, |currentSizes|)
      decreases count - |currentSizes|
    {
      var lastSize := LastOf(currentSizes);
      var lastIndex := if lastSize.Some? then IndexOf(available, lastSize.value) else -1;
      var nextSize := if lastIndex != -1 && lastIndex + 1 < |available|
        then available[lastIndex + 1]
        else available[|available| - 1];
      GrowStep(available, sizes, |currentSizes|);
      currentSizes := currentSizes + [nextSize];
    }
  }

  lemma GrowStep(v: seq<SizeToken>, s: seq<SizeToken>, n: nat)
    requires v != [] && |s| <= n
    ensures Grow(v, s, n + 1) == Grow(v, s, n) + [NextTierSize(v, LastOf(Grow(v, s, n)))]
  {
  }

  // ---------------------------------------------------------------- size change

  /**
   * One step of the repair loop: tier `cur` sits on tier `prev`. When both
   * have a number and `cur` is not smaller, it becomes the vocabulary entry
   * after `prev`, if `prev` is in the vocabulary and not its last entry.
   */
  function Repair(v: seq<SizeToken>, prev: SizeToken, cur: SizeToken): SizeToken {
    if Value(prev).Some? && Value(cur).Some? && Value(cur).value >= Value(prev).value then
      var k := IndexOf(v, prev);
      if k != -1 && k + 1 < |v| then v[k + 1] else cur
    else cur
  }

  /** The repair loop over tiers `k + 1 ..` of `s`: each tier is repaired against the already repaired tier below it. */
  function RepairFrom(v: seq<SizeToken>, s: seq<SizeToken>, k: nat): (r: seq<SizeToken>)
    requires k < |s|
    ensures |r| == |s| && r[..k + 1] == s[..k + 1]
    ensures forall i :: k < i < |s| ==> r[i] == Repair(v, r[i - 1], s[i])
    decreases |s|
  {
    if |s| == k + 1 then s
    else
      var p := RepairFrom(v, s[..|s| - 1], k);
      var r := p + [Repair(v, p[|p| - 1], s[|s| - 1])];
      assert r[..k + 1] == p[..k + 1];
      r
  }

  /** The tier sizes `handleSizeChange(k, newVal)` stores. */
  function SizeChangeResult(shape: CakeShape, sizes: seq<SizeToken>, k: nat, newVal: SizeToken): seq<SizeToken>
    requires k < |sizes|
  {
    var s := sizes[k := newVal];
    if shape == Rectangle then s else RepairFrom(SizesForShape(shape), s, k)
  }

  /**
   * A size change keeps the number of tiers, leaves the tiers below `k`
   * alone and puts `newVal` at `k` (whether or not the dropdown offers it);
   * for the rectangle nothing else changes.
   */
  lemma SizeChangeFrame(shape: CakeShape, sizes: seq<SizeToken>, k: nat, newVal: SizeToken)
    requires k < |sizes|
    ensures var r := SizeChangeResult(shape, sizes, k, newVal);
      && |r| == |sizes| && r[..k] == sizes[..k] && r[k] == newVal
      && (shape == Rectangle ==> forall i :: 0 <= i < |r| && i != k ==> r[i] == sizes[i])
  {
    var r, s := SizeChangeResult(shape, sizes, k, newVal), sizes[k := newVal];
    assert r[..k + 1] == s[..k + 1];
    assert r[..k] == r[..k + 1][..k] && s[..k] == s[..k + 1][..k];
    assert r[k] == r[..k + 1][k];
  }

  /** Every tier above `k` is strictly smaller than the one below it. */
  ghost predicate DescendingAbove(s: seq<SizeToken>, k: nat) {
    forall i :: k < i < |s| ==> Less(s[i], s[i - 1])
  }

  /**
   * After a repair over vocabulary sizes, each tier above `k` is strictly
   * smaller than the tier below it unless that tier is already the smallest
   * size (Heart [24, 18, 16] with tier 1 set to "16" stays [24, 16, 16]),
   * and all tiers remain vocabulary sizes.
   */
  lemma {:induction false} RepairDescends(v: seq<SizeToken>, s: seq<SizeToken>, k: nat)
    requires StrictlyDescending(v) && AllNumeric(v) && v != [] && k < |s|
    requires forall t :: t in s ==> t in v
    ensures forall t :: t in RepairFrom(v, s, k) ==> t in v
    ensures forall i :: k < i < |s| ==>
      Less(RepairFrom(v, s, k)[i], RepairFrom(v, s, k)[i - 1]) || RepairFrom(v, s, k)[i - 1] == Smallest(v)
  {
    var r := RepairFrom(v, s, k);
    assert forall i :: 0 <= i <= k ==> r[i] == r[..k + 1][i] == s[..k + 1][i] == s[i];
    forall i | 0 <= i < |r| ensures r[i] in v {
      if i > k {
        assert s[i] in s;
        var prev := r[i - 1];
        if Value(prev).Some? && Value(s[i]).Some? && Value(s[i]).value >= Value(prev).value {
          var j := IndexOf(v, prev);
          if j != -1 && j + 1 < |v| {
            assert r[i] == v[j + 1];
          }
        }
      } else {
        assert s[i] in s;
      }
    }
    forall i | k < i < |r| ensures Less(r[i], r[i - 1]) || r[i - 1] == Smallest(v) {
      var prev, cur := r[i - 1], s[i];
      assert prev in v && cur in s;
      var pi :| 0 <= pi < |v| && v[pi] == prev;
      var ci :| 0 <= ci < |v| && v[ci] == cur;
      if Value(cur).value >= Value(prev).value {
        IndexOfDescending(v, pi);
        if pi + 1 < |v| {
          assert Less(v[pi + 1], v[pi]);
        }
      }
    }
  }

  /** A tier list that already descends above `k` passes through the repair unchanged. */
  lemma {:induction false} RepairKeepsDescending(v: seq<SizeToken>, s: seq<SizeToken>, k: nat)
    requires k < |s| && DescendingAbove(s, k)
    ensures RepairFrom(v, s, k) == s
    decreases |s|
  {
    if |s| > k + 1 {
      var s' := s[..|s| - 1];
      RepairKeepsDescending(v, s', k);
      var r := RepairFrom(v, s, k);
      assert r[..|s| - 1] == s' by {
        forall i | 0 <= i < |s| - 1 ensures r[i] == s'[i] {
          RepairPrefix(v, s, k, i);
        }
      }
      assert r[|s| - 1] == Repair(v, s[|s| - 2], s[|s| - 1]) by {
        assert r[|s| - 2] == r[..|s| - 1][|s| - 2];
      }
      assert r == r[..|s| - 1] + [r[|s| - 1]];
    }
  }

  /** The repair of a prefix of `s` is the prefix of the repair of `s`. */
  lemma {:induction false} RepairPrefix(v: seq<SizeToken>, s: seq<SizeToken>, k: nat, i: nat)
    requires k < |s| - 1 && i < |s| - 1
    ensures RepairFrom(v, s, k)[i] == RepairFrom(v, s[..|s| - 1], k)[i]
    decreases i
  {
    var r, r' := RepairFrom(v, s, k), RepairFrom(v, s[..|s| - 1], k);
    if i <= k {
      assert r[i] == r[..k + 1][i] && r'[i] == r'[..k + 1][i];
    } else {
      RepairPrefix(v, s, k, i - 1);
    }
  }

  /** Repairing a tier twice against the same tier below changes nothing more. */
  lemma RepairStepIdempotent(v: seq<SizeToken>, prev: SizeToken, cur: SizeToken)
    requires StrictlyDescending(v)
    ensures Repair(v, prev, Repair(v, prev, cur)) == Repair(v, prev, cur)
  {
    var c := Repair(v, prev, cur);
    if c != cur {
      var j := IndexOf(v, prev);
      assert Less(v[j + 1], v[j]);
    }
  }

  /** Running the repair a second time from the same tier changes nothing. */
  lemma {:induction false} RepairIdempotent(v: seq<SizeToken>, s: seq<SizeToken>, k: nat)
    requires StrictlyDescending(v) && k < |s|
    ensures RepairFrom(v, RepairFrom(v, s, k), k) == RepairFrom(v, s, k)
  {
    var r := RepairFrom(v, s, k);
    var rr := RepairFrom(v, r, k);
    forall i | 0 <= i < |s| ensures rr[i] == r[i] {
      RepairTwiceAt(v, s, k, i);
    }
  }

  lemma {:induction false} RepairTwiceAt(v: seq<SizeToken>, s: seq<SizeToken>, k: nat, i: nat)
    requires StrictlyDescending(v) && k < |s| && i < |s|
    ensures RepairFrom(v, RepairFrom(v, s, k), k)[i] == RepairFrom(v, s, k)[i]
  {
    var r := RepairFrom(v, s, k);
    var rr := RepairFrom(v, r, k);
    if i <= k {
      assert rr[i] == rr[..k + 1][i] && r[i] == r[..k + 1][i];
    } else {
      RepairTwiceAt(v, s, k, i - 1);
      RepairStepIdempotent(v, r[i - 1], s[i]);
    }
  }

  /** `handleSizeChange`: the same change applied twice gives the same tiers as applied once. */
  lemma SizeChangeIdempotent(shape: CakeShape, sizes: seq<SizeToken>, k: nat, newVal: SizeToken)
    requires k < |sizes|
    ensures var r := SizeChangeResult(shape, sizes, k, newVal);
      SizeChangeResult(shape, r, k, newVal) == r
  {
    var r := SizeChangeResult(shape, sizes, k, newVal);
    SizeChangeFrame(shape, sizes, k, newVal);
    assert r[k := newVal] == r;
    if shape != Rectangle {
      RepairIdempotent(SizesForShape(shape), sizes[k := newVal], k);
    }
  }

  /** `handleSizeChange`'s computation: copy the list, set tier `tierIndex`, repair the tiers above it in place. */
  method ChangeTierSize(shape: CakeShape, sizes: seq<SizeToken>, tierIndex: nat, newVal: SizeToken)
    returns (r: seq<SizeToken>)
    requires tierIndex < |sizes|
    ensures r == SizeChangeResult(shape, sizes, tierIndex, newVal)
  {
    var newSizes := new SizeToken[|sizes|](i requires 0 <= i < |sizes| => sizes[i]);
    newSizes[tierIndex] := newVal;
    assert newSizes[..] == sizes[tierIndex := newVal];
    if shape != Rectangle {
      RepairAbove(SizesForShape(shape), newSizes, tierIndex);
    }
    r := newSizes[..];
  }

  /** The loop of `handleSizeChange`: each tier above `tierIndex` is repaired in place against the tier below it. */
  method RepairAbove(available: seq<SizeToken>, newSizes: array<SizeToken>, tierIndex: nat)
    requires tierIndex < newSizes.Length
    modifies newSizes
    ensures newSizes[..] == RepairFrom(available, old(newSizes[..]), tierIndex)
  {
    ghost var s := newSizes[..];
    ghost var repaired := RepairFrom(available, s, tierIndex);
    assert forall j :: 0 <= j <= tierIndex ==> repaired[j] == repaired[..tierIndex + 1][j] == s[j];
    for i := tierIndex + 1 to newSizes.Length
      invariant forall j :: 0 <= j < i ==> newSizes[j] == repaired[j]
      invariant forall j :: i <= j < newSizes.Length ==> newSizes[j] == s[j]
    {
      var prevSizeVal := Value(newSizes[i - 1]);
      var currSizeVal := Value(newSizes[i]);
      if prevSizeVal.Some? && currSizeVal.Some? && currSizeVal.value >= prevSizeVal.value {
        var prevIndexInList := IndexOf(available, newSizes[i - 1]);
        if prevIndexInList != -1 && prevIndexInList + 1 < |available| {
          newSizes[i] := available[prevIndexInList + 1];
        }
      }
      assert newSizes[i] == Repair(available, repaired[i - 1], s[i]);
    }
    assert newSizes[..] == repaired;
  }

  // ---------------------------------------------------------------- dropdown options

  /** `v.filter(t => parseInt(t) < bound)`. */
  function SmallerThan(v: seq<SizeToken>, bound: nat): (r: seq<SizeToken>)
    ensures forall t :: t in r <==> t in v && Value(t).Some? && Value(t).value < bound
    ensures |r| <= |v|
  {
    if v == [] then []
    else
      var rest := SmallerThan(v[1..], bound);
      assert forall t :: t in v <==> t == v[0] || t in v[1..];
      if Value(v[0]).Some? && Value(v[0]).value < bound then [v[0]] + rest else rest
  }

  /** In a strictly descending vocabulary the entries below a bound form a suffix of it. */
  lemma {:induction false} SmallerThanIsSuffix(v: seq<SizeToken>, bound: nat)
    requires StrictlyDescending(v)
    ensures var r := SmallerThan(v, bound); r == v[|v| - |r|..]
  {
    if v != [] {
      var tail := v[1..];
      if Value(v[0]).Some? && Value(v[0]).value < bound {
        forall i | 0 <= i < |tail| ensures Value(tail[i]).Some? && Value(tail[i]).value < bound {
          assert Less(v[i + 1], v[0]);
        }
        SmallerThanAll(tail, bound);
        assert v == [v[0]] + tail;
      } else {
        assert StrictlyDescending(tail) by {
          forall i, j | 0 <= i < j < |tail| ensures Less(tail[j], tail[i]) {
            assert Less(v[j + 1], v[i + 1]);
          }
        }
        SmallerThanIsSuffix(tail, bound);
        var r := SmallerThan(tail, bound);
        assert tail[|tail| - |r|..] == v[|v| - |r|..];
      }
    }
  }

  /** When every entry is below the bound the filter keeps them all. */
  lemma {:induction false} SmallerThanAll(v: seq<SizeToken>, bound: nat)
    requires forall i :: 0 <= i < |v| ==> Value(v[i]).Some? && Value(v[i]).value < bound
    ensures SmallerThan(v, bound) == v
  {
    if v != [] {
      SmallerThanAll(v[1..], bound);
      assert v == [v[0]] + v[1..];
    }
  }

  /**
   * `getAvailableOptionsForTier`: the dropdown options of tier `k`. A tier
   * index past the list reads `undefined`, whose `parseInt` is NaN.
   */
  function AvailableOptions(shape: CakeShape, sizes: seq<SizeToken>, k: nat): seq<SizeToken> {
    var allSizes := SizesForShape(shape);
    if k == 0 then allSizes
    else if shape == Rectangle then allSizes
    else if k - 1 >= |sizes| || Value(sizes[k - 1]).None? then allSizes
    else SmallerThan(allSizes, Value(sizes[k - 1]).value)
  }

  /**
   * The bottom tier, every rectangle tier and a tier whose lower neighbour
   * has no number are offered the whole vocabulary; otherwise a tier is
   * offered exactly the vocabulary sizes strictly smaller than the tier
   * below, which form a (possibly empty) suffix of the vocabulary, in order.
   */
  lemma AvailableOptionsSpec(shape: CakeShape, sizes: seq<SizeToken>, k: nat)
    ensures var r, v := AvailableOptions(shape, sizes, k), SizesForShape(shape);
      && r == v[|v| - |r|..]
      && ((k == 0 || shape == Rectangle || k > |sizes| || Value(sizes[k - 1]).None?) ==> r == v)
      && (0 < k <= |sizes| && shape != Rectangle ==>
            forall t :: t in r <==> t in v && (Value(sizes[k - 1]).None? || Less(t, sizes[k - 1])))
  {
    var v := SizesForShape(shape);
    SizesForShapeSpec(shape);
    if 0 < k <= |sizes| && shape != Rectangle && Value(sizes[k - 1]).Some? {
      SmallerThanIsSuffix(v, Value(sizes[k - 1]).value);
    }
  }

  /**
   * Tiers the repair has set are choices their own dropdown offers, unless
   * the tier below is already the smallest size.
   */
  lemma RepairedTiersAreOffered(shape: CakeShape, sizes: seq<SizeToken>, k: nat, newVal: SizeToken)
    requires shape != Rectangle && k < |sizes|
    requires newVal in SizesForShape(shape) && forall t :: t in sizes ==> t in SizesForShape(shape)
    ensures var r, v := SizeChangeResult(shape, sizes, k, newVal), SizesForShape(shape);
      forall i :: k < i < |r| && r[i - 1] != Smallest(v) ==> r[i] in AvailableOptions(shape, r, i)
  {
    var v, s := SizesForShape(shape), sizes[k := newVal];
    SizesForShapeSpec(shape);
    assert forall t :: t in s ==> t in v by {
      forall t | t in s ensures t in v {
        var j :| 0 <= j < |s| && s[j] == t;
        if j != k { assert sizes[j] in sizes; }
      }
    }
    var r := RepairFrom(v, s, k);
    assert r == SizeChangeResult(shape, sizes, k, newVal);
    RepairedAreSmaller(v, s, k);
    forall i | k < i < |r| && r[i - 1] != Smallest(v) ensures r[i] in AvailableOptions(shape, r, i) {
      assert OfferedAt(v, r, i);
    }
  }

  /** Tier `i` of `r` is among the vocabulary sizes strictly smaller than tier `i - 1`. */
  predicate OfferedAt(v: seq<SizeToken>, r: seq<SizeToken>, i: nat)
    requires 0 < i < |r|
  {
    Value(r[i - 1]).Some? && r[i] in SmallerThan(v, Value(r[i - 1]).value)
  }

  /** The vocabulary-level fact behind `RepairedTiersAreOffered`. */
  lemma RepairedAreSmaller(v: seq<SizeToken>, s: seq<SizeToken>, k: nat)
    requires StrictlyDescending(v) && AllNumeric(v) && v != [] && k < |s|
    requires forall t :: t in s ==> t in v
    ensures forall i {:trigger OfferedAt(v, RepairFrom(v, s, k), i)} :: k < i < |s| ==>
      RepairFrom(v, s, k)[i - 1] != Smallest(v) ==> OfferedAt(v, RepairFrom(v, s, k), i)
  {
    var r := RepairFrom(v, s, k);
    RepairDescends(v, s, k);
    forall i | k < i < |r| && r[i - 1] != Smallest(v) ensures OfferedAt(v, r, i) {
      assert r[i] in r && r[i - 1] in r;
      assert Less(r[i], r[i - 1]);
      assert r[i] in SmallerThan(v, Value(r[i - 1]).value);
    }
  }

  // ---------------------------------------------------------------- worked scenarios

  /** Round cake: one tier "24" grown to three tiers gives [24, 22, 18]. */
  lemma RoundGrowthScenario()
    ensures TierCountResult(Round, [Cm(24)], 3) == [Cm(24), Cm(22), Cm(18)]
  {
    var v := RoundSizes;
    NumericVocabulariesDescend();
    IndexOfDescending(v, 1);
    IndexOfDescending(v, 2);
    var g := TierCountResult(Round, [Cm(24)], 3);
    assert g[0] == g[..1][0] == Cm(24);
    assert LastOf(g[..1]) == Some(Cm(24));
    assert g[1] == Cm(22);
    assert LastOf(g[..2]) == Some(Cm(22));
  }

  /** Round cake [24, 22, 18]: setting the bottom tier to "18" pushes the others down to [18, 16, 14]. */
  lemma RoundRepairScenario()
    ensures SizeChangeResult(Round, [Cm(24), Cm(22), Cm(18)], 0, Cm(18)) == [Cm(18), Cm(16), Cm(14)]
  {
    var v := RoundSizes;
    var s := [Cm(18), Cm(22), Cm(18)];
    assert [Cm(24), Cm(22), Cm(18)][0 := Cm(18)] == s;
    var r := RepairFrom(v, s, 0);
    assert r[0] == Cm(18) by {
      assert r[0] == r[..1][0];
    }
    assert r[1] == Cm(16) && r[2] == Cm(14) by {
      RoundRepairSteps();
    }
  }

  lemma RoundRepairSteps()
    ensures Repair(RoundSizes, Cm(18), Cm(22)) == Cm(16)
    ensures Repair(RoundSizes, Cm(16), Cm(18)) == Cm(14)
  {
    var v := RoundSizes;
    NumericVocabulariesDescend();
    IndexOfDescending(v, 3);
    IndexOfDescending(v, 4);
  }

  /** Heart cake: the repair stops at the smallest size, and [16] grows to [16, 16]. */
  lemma HeartScenario()
    ensures SizeChangeResult(Heart, [Cm(24), Cm(18), Cm(16)], 1, Cm(16)) == [Cm(24), Cm(16), Cm(16)]
    ensures TierCountResult(Heart, [Cm(16)], 2) == [Cm(16), Cm(16)]
  {
    var v := HeartSizes;
    NumericVocabulariesDescend();
    IndexOfDescending(v, 2);
    var r := SizeChangeResult(Heart, [Cm(24), Cm(18), Cm(16)], 1, Cm(16));
    assert r[..2] == [Cm(24), Cm(16)];
    assert r[2] == Repair(v, Cm(16), Cm(16)) == Cm(16);
    var g := TierCountResult(Heart, [Cm(16)], 2);
    assert g[0] == g[..1][0] == Cm(16);
    assert LastOf(g[..1]) == Some(Cm(16));
  }
}
