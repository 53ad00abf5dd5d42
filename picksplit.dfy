/**
 * signature_picksplit (imgsmlr_idx.c): the split of an overfull index page
 * into a left and a right page.
 *
 * The entries are vector[1..maxoff] (index 0 is not used).  First the pair of
 * entries that wastes the most volume when put together becomes the seed of
 * the two sides.  Then, while entries remain, the undistributed entry whose
 * preference for one side (delta, the difference in growth of the two
 * boxes) is the strongest is placed on the side it prefers, and that side's
 * box is extended to cover it.
 */
module PickSplit {
  import opened Types
  import opened Keys
  import opened Volumes

  /** FirstOffsetNumber and InvalidOffsetNumber of PostgreSQL's page layout. */
  const FirstOffsetNumber: int := 1
  const InvalidOffsetNumber: int := 0

  /**
   * The entry vector of a split: entries 1..maxoff, at least two of them.
   * Slot 0 is never read, but it must hold a key too, so that every slot
   * can be indexed alike.
   */
  predicate IsEntryVector(vector: seq<Key>)
  {
    |vector| >= 3 && AllKeys(vector)
  }

  // ---------------------------------------------------------------- the seeds

  /** size_waste of a pair: the volume of their union that their overlap does not account for. */
  function Waste(vector: seq<Key>, i: int, j: int): real
    requires AllKeys(vector) && 0 <= i < |vector| && 0 <= j < |vector|
  {
    UnionVolume(vector[i], vector[j]) - IntersectVolume(vector[i], vector[j])
  }

  /** Pair (i, j) comes before position (k, l) in the order of the two seed loops. */
  predicate Precedes(i: int, j: int, k: int, l: int)
  {
    i < k || (i == k && j < l)
  }

  /** (seed1, seed2) has the largest waste of all pairs, and every pair before it a smaller one. */
  predicate FirstWidest(vector: seq<Key>, seed1: int, seed2: int)
    requires AllKeys(vector)
  {
    && 1 <= seed1 < seed2 < |vector|
    && (forall i, j :: 1 <= i < j < |vector| ==> Waste(vector, i, j) <= Waste(vector, seed1, seed2))
    && (forall i, j :: 1 <= i < j < |vector| && Precedes(i, j, seed1, seed2) ==> Waste(vector, i, j) < Waste(vector, seed1, seed2))
  }

  /** Ties go to the earlier pair, so the seeds are determined by the entries. */
  lemma FirstWidestUnique(vector: seq<Key>, s1: int, s2: int, t1: int, t2: int)
    requires AllKeys(vector) && FirstWidest(vector, s1, s2) && FirstWidest(vector, t1, t2)
    ensures s1 == t1 && s2 == t2
  {
    assert Waste(vector, t1, t2) <= Waste(vector, s1, s2);
    assert Waste(vector, s1, s2) <= Waste(vector, t1, t2);
  }

  /** The best pair among those before position (k, l), and its waste. */
  predicate BestBefore(vector: seq<Key>, seed1: int, seed2: int, waste: real, k: int, l: int)
    requires AllKeys(vector)
  {
    && 1 <= seed1 < seed2 < |vector| && Precedes(seed1, seed2, k, l)
    && waste == Waste(vector, seed1, seed2)
    && (forall i, j :: 1 <= i < j < |vector| && Precedes(i, j, k, l) ==> Waste(vector, i, j) <= waste)
    && (forall i, j :: 1 <= i < j < |vector| && Precedes(i, j, seed1, seed2) ==> Waste(vector, i, j) < waste)
  }

  /** One comparison of the seed loops: pair (i, j) replaces the best one when its waste is larger, or when it is the first. */
  lemma BestStep(vector: seq<Key>, seed1: int, seed2: int, waste: real, i: int, j: int, firsttime: bool)
    requires AllKeys(vector) && 1 <= i < j < |vector|
    requires firsttime ==> i == 1 && j == 2
    requires !firsttime ==> BestBefore(vector, seed1, seed2, waste, i, j)
    ensures Waste(vector, i, j) > waste || firsttime ==> BestBefore(vector, i, j, Waste(vector, i, j), i, j + 1)
    ensures !(Waste(vector, i, j) > waste || firsttime) ==> BestBefore(vector, seed1, seed2, waste, i, j + 1)
  {
  }

  /** The end of row i of the pairs is the start of row i + 1. */
  lemma BestRow(vector: seq<Key>, seed1: int, seed2: int, waste: real, i: int)
    requires AllKeys(vector) && BestBefore(vector, seed1, seed2, waste, i, |vector|)
    ensures BestBefore(vector, seed1, seed2, waste, i + 1, 0)
  {
  }

  /** The seed loops of signature_picksplit. */
  method PickSeeds(vector: seq<Key>) returns (seed1: int, seed2: int)
    requires IsEntryVector(vector)
    ensures FirstWidest(vector, seed1, seed2)
  {
    var maxoff := |vector| - 1;
    var firsttime := true;
    var waste := 0.0;
    seed1, seed2 := 1, 2;
    var i := FirstOffsetNumber;
    while i < maxoff
      invariant 1 <= i <= maxoff
      invariant firsttime <==> i == 1
      invariant !firsttime ==> BestBefore(vector, seed1, seed2, waste, i, 0)
    {
      var j := i + 1;
      while j <= maxoff
        invariant i + 1 <= j <= maxoff + 1
        invariant firsttime <==> (i == 1 && j == 2)
        invariant !firsttime ==> BestBefore(vector, seed1, seed2, waste, i, j)
      {
        var unionSize, intersectSize := UnionIntersectSize(vector[i], vector[j]);
        var sizeWaste := unionSize - intersectSize;
        BestStep(vector, seed1, seed2, waste, i, j, firsttime);
        if sizeWaste > waste || firsttime {
          waste := sizeWaste;
          seed1 := i;
          seed2 := j;
          firsttime := false;
        }
        j := j + 1;
      }
      BestRow(vector, seed1, seed2, waste, i);
      i := i + 1;
    }
  }

  // ---------------------------------------------------------------- choosing the next entry

  /** What the choice of the next entry depends on: both boxes, their volumes and the lengths of both lists. */
  datatype Sides = Sides(l: Key, r: Key, sizeL: real, sizeR: real, nleft: int, nright: int)

  /** delta of entry i: how much more the left box grows than the right one when it covers the entry. */
  function Delta(vector: seq<Key>, s: Sides, i: int): real
    requires AllKeys(vector) && 0 <= i < |vector| && IsKey(s.l) && IsKey(s.r)
  {
    UnionVolume(s.l, vector[i]) - s.sizeL - UnionVolume(s.r, vector[i]) + s.sizeR
  }

  /** The side rule of the distribution: left when max_delta < 0, or when it is 0 and the left list is shorter. */
  predicate GoesLeft(vector: seq<Key>, distributed: seq<bool>, s: Sides)
    requires AllKeys(vector) && |distributed| == |vector| && |vector| >= 1 && IsKey(s.l) && IsKey(s.r)
  {
    Chosen(vector, distributed, s, |vector|).maxDelta < 0.0
    || (Chosen(vector, distributed, s, |vector|).maxDelta == 0.0 && s.nleft < s.nright)
  }

  /** `direction`: the preference of the entry is for the side with fewer entries. */
  predicate Direction(s: Sides, delta: real)
  {
    (s.nleft < s.nright && delta < 0.0) || (s.nleft > s.nright && delta > 0.0)
  }

  /** The state of the scan: the selected entry, its delta, and whether none is selected yet. */
  datatype Choice = Choice(selected: int, maxDelta: real, firsttime: bool)

  /** An entry with this delta replaces the current choice. */
  predicate Replaces(s: Sides, c: Choice, delta: real)
  {
    Abs(delta) > Abs(c.maxDelta) || (Abs(delta) == Abs(c.maxDelta) && Direction(s, delta)) || c.firsttime
  }

  /** The choice once the scan has looked at entries 1 .. i - 1, skipping those already distributed. */
  function Chosen(vector: seq<Key>, distributed: seq<bool>, s: Sides, i: int): Choice
    requires AllKeys(vector) && |distributed| == |vector| && IsKey(s.l) && IsKey(s.r) && 1 <= i <= |vector|
    decreases i
  {
    if i == FirstOffsetNumber then Choice(InvalidOffsetNumber, 0.0, true)
    else if distributed[i - 1] then Chosen(vector, distributed, s, i - 1)
    else if Replaces(s, Chosen(vector, distributed, s, i - 1), Delta(vector, s, i - 1)) then Choice(i - 1, Delta(vector, s, i - 1), false)
    else Chosen(vector, distributed, s, i - 1)
  }

  /**
   * The scan selects an entry exactly when one is undistributed, the selected
   * entry is undistributed, and no undistributed entry has a larger |delta|.
   */
  lemma {:induction false} ChosenProps(vector: seq<Key>, distributed: seq<bool>, s: Sides, i: int)
    requires AllKeys(vector) && |distributed| == |vector| && IsKey(s.l) && IsKey(s.r) && 1 <= i <= |vector|
    ensures Chosen(vector, distributed, s, i).firsttime <==> forall k :: 1 <= k < i ==> distributed[k]
    ensures !Chosen(vector, distributed, s, i).firsttime ==>
      && 1 <= Chosen(vector, distributed, s, i).selected < i
      && !distributed[Chosen(vector, distributed, s, i).selected]
      && Chosen(vector, distributed, s, i).maxDelta == Delta(vector, s, Chosen(vector, distributed, s, i).selected)
    ensures !Chosen(vector, distributed, s, i).firsttime ==>
      forall k :: 1 <= k < i && !distributed[k] ==> Abs(Delta(vector, s, k)) <= Abs(Chosen(vector, distributed, s, i).maxDelta)
    decreases i
  {
    if i > FirstOffsetNumber {
      ChosenProps(vector, distributed, s, i - 1);
    }
  }

  /** The selection is always an offset into the vector (InvalidOffsetNumber while none is chosen). */
  lemma {:induction false} ChosenRange(vector: seq<Key>, distributed: seq<bool>, s: Sides, i: int)
    requires AllKeys(vector) && |distributed| == |vector| && IsKey(s.l) && IsKey(s.r) && 1 <= i <= |vector|
    ensures 0 <= Chosen(vector, distributed, s, i).selected < i
    decreases i
  {
    if i > FirstOffsetNumber {
      ChosenRange(vector, distributed, s, i - 1);
    }
  }

  /** The inner loop of the distribution: the next entry to place, and its delta. */
  method SelectNext(vector: seq<Key>, distributed: seq<bool>, datumL: Key, datumR: Key,
                    sizeL: real, sizeR: real, nleft: int, nright: int)
    returns (selected: int, maxDelta: real)
    requires AllKeys(vector) && |distributed| == |vector| && |vector| >= 1 && IsKey(datumL) && IsKey(datumR)
    ensures selected == Chosen(vector, distributed, Sides(datumL, datumR, sizeL, sizeR, nleft, nright), |vector|).selected
    ensures maxDelta == Chosen(vector, distributed, Sides(datumL, datumR, sizeL, sizeR, nleft, nright), |vector|).maxDelta
  {
    ghost var s := Sides(datumL, datumR, sizeL, sizeR, nleft, nright);
    var maxoff := |vector| - 1;
    selected, maxDelta := InvalidOffsetNumber, 0.0;
    var firsttime := true;
    var i := FirstOffsetNumber;
    while i <= maxoff
      invariant 1 <= i <= maxoff + 1
      invariant Choice(selected, maxDelta, firsttime) == Chosen(vector, distributed, s, i)
    {
      if !distributed[i] {
        var unionL, intersectL := UnionIntersectSize(datumL, vector[i]);
        var unionR, intersectR := UnionIntersectSize(datumR, vector[i]);
        var delta := unionL - sizeL - unionR + sizeR;
        var direction := false;
        if nleft < nright && delta < 0.0 {
          direction := true;
        }
        if nleft > nright && delta > 0.0 {
          direction := true;
        }
        assert delta == Delta(vector, s, i);
        if Abs(delta) > Abs(maxDelta) || (Abs(delta) == Abs(maxDelta) && direction) || firsttime {
          maxDelta := delta;
          selected := i;
          firsttime := false;
        }
      }
      i := i + 1;
    }
  }

  // ---------------------------------------------------------------- counting what is left

  /** Entries among 1 .. n - 1 not yet distributed. */
  function Undistributed(distributed: seq<bool>, n: int): int
    requires 1 <= n <= |distributed|
    decreases n
  {
    if n == 1 then 0 else Undistributed(distributed, n - 1) + (if distributed[n - 1] then 0 else 1)
  }

  /** The count is 0 exactly when every entry is distributed, and n - 1 when none is. */
  lemma {:induction false} UndistributedNone(distributed: seq<bool>, n: int)
    requires 1 <= n <= |distributed|
    ensures 0 <= Undistributed(distributed, n) <= n - 1
    ensures Undistributed(distributed, n) == 0 <==> forall k :: 1 <= k < n ==> distributed[k]
    ensures (forall k :: 1 <= k < n ==> !distributed[k]) ==> Undistributed(distributed, n) == n - 1
    decreases n
  {
    if n > 1 {
      UndistributedNone(distributed, n - 1);
    }
  }

  /** Distributing one more entry takes one off the count. */
  lemma {:induction false} UndistributedStep(distributed: seq<bool>, n: int, k: int)
    requires 1 <= k < n <= |distributed| && !distributed[k]
    ensures Undistributed(distributed[k := true], n) == Undistributed(distributed, n) - 1
    decreases n
  {
    if n - 1 > k {
      UndistributedStep(distributed, n - 1, k);
    } else {
      UndistributedSame(distributed, distributed[k := true], n - 1);
    }
  }

  /** The count of the first n - 1 entries depends on those only. */
  lemma {:induction false} UndistributedSame(d: seq<bool>, d': seq<bool>, n: int)
    requires 1 <= n <= |d| && n <= |d'| && forall k :: 1 <= k < n ==> d[k] == d'[k]
    ensures Undistributed(d, n) == Undistributed(d', n)
    decreases n
  {
    if n > 1 {
      UndistributedSame(d, d', n - 1);
    }
  }

  // ---------------------------------------------------------------- the two sides

  /** Offsets of entries, all of them in 1..maxoff. */
  predicate InRange(list: seq<int>, maxoff: int)
  {
    forall t :: 0 <= t < |list| ==> 1 <= list[t] <= maxoff
  }

  /** No offset appears twice. */
  predicate Distinct(list: seq<int>)
  {
    forall t, u :: 0 <= t < u < |list| ==> list[t] != list[u]
  }

  /** Two lists of offsets that could be the two sides of a split so far. */
  predicate Apart(left: seq<int>, right: seq<int>, maxoff: int)
  {
    && InRange(left, maxoff) && InRange(right, maxoff) && Distinct(left) && Distinct(right)
    && forall t, u :: 0 <= t < |left| && 0 <= u < |right| ==> left[t] != right[u]
  }

  /** The two sides are a partition of 1..maxoff. */
  predicate Partition(left: seq<int>, right: seq<int>, maxoff: int)
  {
    Apart(left, right, maxoff) && forall k :: 1 <= k <= maxoff ==> k in left || k in right
  }

  /** The entries a list of offsets names. */
  function Members(vector: seq<Key>, list: seq<int>): (r: seq<Key>)
    requires AllKeys(vector) && forall t :: 0 <= t < |list| ==> 0 <= list[t] < |vector|
    ensures |r| == |list| && AllKeys(r)
  {
    seq(|list|, t requires 0 <= t < |list| => vector[list[t]])
  }

  /** The box of one side: the union of its entries, taken in the order they were placed. */
  function SideBox(vector: seq<Key>, list: seq<int>): (r: Key)
    requires AllKeys(vector) && 1 <= |list| && forall t :: 0 <= t < |list| ==> 0 <= list[t] < |vector|
    ensures |r| == 2 * SignatureSize
  {
    UnionOf(Members(vector, list), |list|)
  }

  /** Placing an entry on a side extends the side's box with it. */
  lemma SideBoxStep(vector: seq<Key>, list: seq<int>, k: int)
    requires AllKeys(vector) && 1 <= |list| && forall t :: 0 <= t < |list| ==> 0 <= list[t] < |vector|
    requires 0 <= k < |vector|
    ensures SideBox(vector, list + [k]) == Extended(SideBox(vector, list), vector[k])
  {
    var m, m' := Members(vector, list), Members(vector, list + [k]);
    assert m'[..|list|] == m[..|list|];
    UnionPrefix(m', m, |list|);
  }

  /** The box of a side contains every entry of that side. */
  lemma SideBoxContains(vector: seq<Key>, list: seq<int>)
    requires AllKeys(vector) && 1 <= |list| && forall t :: 0 <= t < |list| ==> 0 <= list[t] < |vector|
    ensures forall t :: 0 <= t < |list| ==> Contains(SideBox(vector, list), vector[list[t]])
  {
    UnionBounds(Members(vector, list), |list|);
    forall t | 0 <= t < |list|
      ensures Contains(SideBox(vector, list), vector[list[t]])
    {
      assert Members(vector, list)[t] == vector[list[t]];
    }
  }

  /** After a split every entry is on exactly one side, and that side's box contains it. */
  lemma SplitCovers(vector: seq<Key>, left: seq<int>, right: seq<int>)
    requires IsEntryVector(vector) && 1 <= |left| && 1 <= |right| && Partition(left, right, |vector| - 1)
    ensures forall k :: 1 <= k < |vector| ==> (k in left) != (k in right)
    ensures forall k :: 1 <= k < |vector| && k in left ==> Contains(SideBox(vector, left), vector[k])
    ensures forall k :: 1 <= k < |vector| && k in right ==> Contains(SideBox(vector, right), vector[k])
  {
    SideBoxContains(vector, left);
    SideBoxContains(vector, right);
    forall k | 1 <= k < |vector| && k in left
      ensures Contains(SideBox(vector, left), vector[k])
    {
      var t :| 0 <= t < |left| && left[t] == k;
    }
    forall k | 1 <= k < |vector| && k in right
      ensures Contains(SideBox(vector, right), vector[k])
    {
      var u :| 0 <= u < |right| && right[u] == k;
    }
  }

  // ---------------------------------------------------------------- the state of the distribution

  /** `distributed` marks exactly the entries on one of the two lists. */
  predicate Tracks(distributed: seq<bool>, left: seq<int>, right: seq<int>, maxoff: int)
    requires maxoff < |distributed|
  {
    forall k :: 1 <= k <= maxoff ==> (distributed[k] <==> (k in left || k in right))
  }

  /**
   * What holds before every round of the distribution loop, over the values
   * of its variables: the lists are apart, `distributed` and
   * undistributed_count agree with them, the seeds head the lists, and each
   * box is the union of its side with its volume beside it.
   */
  ghost predicate Progress(vector: seq<Key>, distributed: seq<bool>, left: seq<int>, right: seq<int>,
                           lbox: Key, rbox: Key, sizeL: real, sizeR: real, count: int, seed1: int, seed2: int)
  {
    && IsEntryVector(vector) && |distributed| == |vector|
    && 1 <= |left| && 1 <= |right| && |left| + |right| + count == |vector| - 1
    && count == Undistributed(distributed, |vector|)
    && Apart(left, right, |vector| - 1) && Tracks(distributed, left, right, |vector| - 1)
    && left[0] == seed1 && right[0] == seed2
    && lbox == SideBox(vector, left) && rbox == SideBox(vector, right)
    && sizeL == Volume(lbox) && sizeR == Volume(rbox)
  }

  /** Putting an undistributed entry at the end of one list keeps the lists apart and tracked. */
  lemma Adjoin(distributed: seq<bool>, side: seq<int>, other: seq<int>, maxoff: int, k: int)
    requires maxoff < |distributed| && Apart(side, other, maxoff) && Tracks(distributed, side, other, maxoff)
    requires 1 <= k <= maxoff && !distributed[k]
    ensures Apart(side + [k], other, maxoff) && Tracks(distributed[k := true], side + [k], other, maxoff)
  {
    assert k !in side && k !in other;
    forall j | 1 <= j <= maxoff
      ensures distributed[k := true][j] <==> (j in side + [k] || j in other)
    {
      assert j in side + [k] <==> (j in side || j == k);
    }
  }

  /** The two lists play the same part. */
  lemma Swap(distributed: seq<bool>, left: seq<int>, right: seq<int>, maxoff: int)
    requires maxoff < |distributed|
    ensures Apart(left, right, maxoff) <==> Apart(right, left, maxoff)
    ensures Tracks(distributed, left, right, maxoff) <==> Tracks(distributed, right, left, maxoff)
  {
  }

  /** The two seeds, each on its own list, with nothing else distributed. */
  lemma ProgressStart(vector: seq<Key>, distributed: seq<bool>, seed1: int, seed2: int)
    requires IsEntryVector(vector) && |distributed| == |vector| && 1 <= seed1 < seed2 < |vector|
    requires forall k :: 1 <= k < |vector| ==> !distributed[k]
    ensures Progress(vector, distributed[seed1 := true][seed2 := true], [seed1], [seed2],
                     AsBox(vector[seed1]), AsBox(vector[seed2]), Volume(AsBox(vector[seed1])), Volume(AsBox(vector[seed2])),
                     |vector| - 3, seed1, seed2)
  {
    var d := distributed[seed1 := true];
    UndistributedNone(distributed, |vector|);
    UndistributedStep(distributed, |vector|, seed1);
    UndistributedStep(d, |vector|, seed2);
    assert SideBox(vector, [seed1]) == AsBox(vector[seed1]);
    assert SideBox(vector, [seed2]) == AsBox(vector[seed2]);
  }

  /** While entries are left, the scan selects one of them. */
  lemma SelectionValid(vector: seq<Key>, distributed: seq<bool>, left: seq<int>, right: seq<int>,
                       lbox: Key, rbox: Key, sizeL: real, sizeR: real, count: int, seed1: int, seed2: int)
    requires Progress(vector, distributed, left, right, lbox, rbox, sizeL, sizeR, count, seed1, seed2) && count > 0
    ensures 1 <= Chosen(vector, distributed, Sides(lbox, rbox, sizeL, sizeR, |left|, |right|), |vector|).selected < |vector|
    ensures !distributed[Chosen(vector, distributed, Sides(lbox, rbox, sizeL, sizeR, |left|, |right|), |vector|).selected]
  {
    UndistributedNone(distributed, |vector|);
    ChosenProps(vector, distributed, Sides(lbox, rbox, sizeL, sizeR, |left|, |right|), |vector|);
  }

  /** Placing an undistributed entry on the left keeps the state. */
  lemma PlaceLeft(vector: seq<Key>, distributed: seq<bool>, left: seq<int>, right: seq<int>,
                  lbox: Key, rbox: Key, sizeL: real, sizeR: real, count: int, seed1: int, seed2: int, k: int)
    requires Progress(vector, distributed, left, right, lbox, rbox, sizeL, sizeR, count, seed1, seed2)
    requires 1 <= k < |vector| && !distributed[k]
    ensures Progress(vector, distributed[k := true], left + [k], right, Extended(lbox, vector[k]), rbox,
                     Volume(Extended(lbox, vector[k])), sizeR, count - 1, seed1, seed2)
  {
    Adjoin(distributed, left, right, |vector| - 1, k);
    UndistributedStep(distributed, |vector|, k);
    SideBoxStep(vector, left, k);
  }

  /** Placing an undistributed entry on the right keeps the state. */
  lemma PlaceRight(vector: seq<Key>, distributed: seq<bool>, left: seq<int>, right: seq<int>,
                   lbox: Key, rbox: Key, sizeL: real, sizeR: real, count: int, seed1: int, seed2: int, k: int)
    requires Progress(vector, distributed, left, right, lbox, rbox, sizeL, sizeR, count, seed1, seed2)
    requires 1 <= k < |vector| && !distributed[k]
    ensures Progress(vector, distributed[k := true], left, right + [k], lbox, Extended(rbox, vector[k]),
                     sizeL, Volume(Extended(rbox, vector[k])), count - 1, seed1, seed2)
  {
    Swap(distributed, left, right, |vector| - 1);
    Adjoin(distributed, right, left, |vector| - 1, k);
    Swap(distributed[k := true], left, right + [k], |vector| - 1);
    UndistributedStep(distributed, |vector|, k);
    SideBoxStep(vector, right, k);
  }

  /** Once no entry is left, the lists are a partition of the entries. */
  lemma ProgressDone(vector: seq<Key>, distributed: seq<bool>, left: seq<int>, right: seq<int>,
                     lbox: Key, rbox: Key, sizeL: real, sizeR: real, seed1: int, seed2: int)
    requires Progress(vector, distributed, left, right, lbox, rbox, sizeL, sizeR, 0, seed1, seed2)
    ensures Partition(left, right, |vector| - 1)
  {
    UndistributedNone(distributed, |vector|);
  }

  // ---------------------------------------------------------------- the whole distribution

  /** Offsets that can index the vector. */
  predicate Offsets(list: seq<int>, n: int)
  {
    forall t :: 0 <= t < |list| ==> 0 <= list[t] < n
  }

  /** What the choice of the next entry is made from, when the sides are the lists L and R. */
  function SidesOf(vector: seq<Key>, L: seq<int>, R: seq<int>): Sides
    requires AllKeys(vector) && 1 <= |L| && 1 <= |R| && Offsets(L, |vector|) && Offsets(R, |vector|)
  {
    Sides(SideBox(vector, L), SideBox(vector, R), Volume(SideBox(vector, L)), Volume(SideBox(vector, R)), |L|, |R|)
  }

  /**
   * The lists the distribution loop ends with, from flags d and lists L and
   * R with count entries left: each round selects the entry the scan
   * chooses, appends it to the left list when GoesLeft holds and to the
   * right list otherwise, and marks it distributed.
   */
  function Rounds(vector: seq<Key>, d: seq<bool>, L: seq<int>, R: seq<int>, count: int): (seq<int>, seq<int>)
    requires AllKeys(vector) && |d| == |vector| && |vector| >= 1
    requires 1 <= |L| && 1 <= |R| && Offsets(L, |vector|) && Offsets(R, |vector|)
    decreases count
  {
    if count <= 0 then (L, R)
    else
      var s := SidesOf(vector, L, R);
      ChosenRange(vector, d, s, |vector|);
      var k := Chosen(vector, d, s, |vector|).selected;
      if GoesLeft(vector, d, s) then Rounds(vector, d[k := true], L + [k], R, count - 1)
      else Rounds(vector, d[k := true], L, R + [k], count - 1)
  }

  /** One round of the loop takes Rounds one step. */
  lemma RoundsStep(vector: seq<Key>, d: seq<bool>, L: seq<int>, R: seq<int>,
                   lbox: Key, rbox: Key, sizeL: real, sizeR: real, count: int, seed1: int, seed2: int, k: int)
    requires Progress(vector, d, L, R, lbox, rbox, sizeL, sizeR, count, seed1, seed2) && count > 0
    requires k == Chosen(vector, d, Sides(lbox, rbox, sizeL, sizeR, |L|, |R|), |vector|).selected
    ensures 1 <= k < |vector| && !d[k] && Offsets(L + [k], |vector|) && Offsets(R + [k], |vector|)
    ensures GoesLeft(vector, d, Sides(lbox, rbox, sizeL, sizeR, |L|, |R|)) ==>
      Rounds(vector, d[k := true], L + [k], R, count - 1) == Rounds(vector, d, L, R, count)
    ensures !GoesLeft(vector, d, Sides(lbox, rbox, sizeL, sizeR, |L|, |R|)) ==>
      Rounds(vector, d[k := true], L, R + [k], count - 1) == Rounds(vector, d, L, R, count)
  {
    SelectionValid(vector, d, L, R, lbox, rbox, sizeL, sizeR, count, seed1, seed2);
    assert SidesOf(vector, L, R) == Sides(lbox, rbox, sizeL, sizeR, |L|, |R|);
  }

  /**
   * From any state of the loop, the lists Rounds ends with partition the
   * entries, keep the seeds at their heads, and are as long as the
   * entries together.
   */
  lemma {:induction false} RoundsPartition(vector: seq<Key>, d: seq<bool>, L: seq<int>, R: seq<int>,
                                           lbox: Key, rbox: Key, sizeL: real, sizeR: real, count: int, seed1: int, seed2: int)
    requires Progress(vector, d, L, R, lbox, rbox, sizeL, sizeR, count, seed1, seed2)
    ensures Offsets(L, |vector|) && Offsets(R, |vector|)
    ensures 1 <= |Rounds(vector, d, L, R, count).0| && 1 <= |Rounds(vector, d, L, R, count).1|
    ensures |Rounds(vector, d, L, R, count).0| + |Rounds(vector, d, L, R, count).1| == |vector| - 1
    ensures Partition(Rounds(vector, d, L, R, count).0, Rounds(vector, d, L, R, count).1, |vector| - 1)
    ensures Rounds(vector, d, L, R, count).0[0] == seed1 && Rounds(vector, d, L, R, count).1[0] == seed2
    decreases count
  {
    UndistributedNone(d, |vector|);
    if count <= 0 {
      ProgressDone(vector, d, L, R, lbox, rbox, sizeL, sizeR, seed1, seed2);
    } else {
      var s := Sides(lbox, rbox, sizeL, sizeR, |L|, |R|);
      var k := Chosen(vector, d, s, |vector|).selected;
      RoundsStep(vector, d, L, R, lbox, rbox, sizeL, sizeR, count, seed1, seed2, k);
      SelectionValid(vector, d, L, R, lbox, rbox, sizeL, sizeR, count, seed1, seed2);
      if GoesLeft(vector, d, s) {
        PlaceLeft(vector, d, L, R, lbox, rbox, sizeL, sizeR, count, seed1, seed2, k);
        RoundsPartition(vector, d[k := true], L + [k], R, Extended(lbox, vector[k]), rbox,
                        Volume(Extended(lbox, vector[k])), sizeR, count - 1, seed1, seed2);
      } else {
        PlaceRight(vector, d, L, R, lbox, rbox, sizeL, sizeR, count, seed1, seed2, k);
        RoundsPartition(vector, d[k := true], L, R + [k], lbox, Extended(rbox, vector[k]),
                        sizeL, Volume(Extended(rbox, vector[k])), count - 1, seed1, seed2);
      }
    }
  }

  /** The flags once both seeds are marked and nothing else is. */
  function SeedsMarked(n: int, seed1: int, seed2: int): (r: seq<bool>)
    requires n >= 0
    ensures |r| == n && forall k :: 0 <= k < n ==> (r[k] <==> k == seed1 || k == seed2)
  {
    seq(n, k => k == seed1 || k == seed2)
  }

  // ---------------------------------------------------------------- the C function

  /** palloc0 of the `distributed` flags. */
  method NoneDistributed(n: int) returns (distributed: array<bool>)
    requires n >= 0
    ensures fresh(distributed) && distributed.Length == n
    ensures forall k :: 0 <= k < n ==> !distributed[k]
  {
    distributed := new bool[n](_ => false);
  }

  /** A new box buffer holding the box of one seed, and its volume. */
  method SeedBox(key: Key) returns (datum: array<real>, size: real)
    requires IsKey(key)
    ensures fresh(datum) && datum[..] == AsBox(key) && size == Volume(AsBox(key))
  {
    datum := new real[2 * SignatureSize];
    SetSignature(datum, key);
    size := KeySize(datum[..]);
  }

  /** One placement: the entry goes to the end of the list, and the side's box grows to cover it. */
  method Place(list: array<int>, n: int, datum: array<real>, key: Key, selected: int) returns (size: real)
    requires 0 <= n < list.Length && datum.Length == 2 * SignatureSize && IsKey(key)
    modifies list, datum
    ensures list[..n + 1] == old(list[..n]) + [selected]
    ensures datum[..] == Extended(old(datum[..]), key)
    ensures size == Volume(datum[..])
  {
    ExtendSignature(datum, key);
    size := KeySize(datum[..]);
    list[n] := selected;
  }

  /** The buffers of a split: where they are, how long they are, and that the two sides do not share one. */
  predicate Buffers(distributed: array<bool>, left: array<int>, right: array<int>, ldatum: array<real>, rdatum: array<real>, n: int)
  {
    && distributed.Length == n && left.Length == n && right.Length == n
    && ldatum.Length == 2 * SignatureSize && rdatum.Length == 2 * SignatureSize
    && left != right && ldatum != rdatum
  }

  /** The first branch of a round: the selected entry goes to the left. */
  method ToLeft(vector: seq<Key>, distributed: array<bool>, left: array<int>, right: array<int>,
                ldatum: array<real>, rdatum: array<real>, nleft: int, sizeL: real, sizeR: real,
                count: int, ghost L: seq<int>, ghost R: seq<int>, ghost seed1: int, ghost seed2: int, selected: int)
    returns (sizeL': real)
    requires Buffers(distributed, left, right, ldatum, rdatum, |vector|)
    requires Progress(vector, distributed[..], L, R, ldatum[..], rdatum[..], sizeL, sizeR, count, seed1, seed2)
    requires nleft == |L| < |vector| - 1 && left[..nleft] == L && 1 <= selected < |vector| && !distributed[selected]
    modifies distributed, left, ldatum
    ensures Progress(vector, distributed[..], L + [selected], R, ldatum[..], rdatum[..], sizeL', sizeR, count - 1, seed1, seed2)
    ensures left[..nleft + 1] == L + [selected] && distributed[..] == old(distributed[..])[selected := true]
  {
    ghost var d := distributed[..];
    PlaceLeft(vector, d, L, R, ldatum[..], rdatum[..], sizeL, sizeR, count, seed1, seed2, selected);
    sizeL' := Place(left, nleft, ldatum, vector[selected], selected);
    distributed[selected] := true;
    assert distributed[..] == d[selected := true];
  }

  /** The other branch: the selected entry goes to the right. */
  method ToRight(vector: seq<Key>, distributed: array<bool>, left: array<int>, right: array<int>,
                 ldatum: array<real>, rdatum: array<real>, nright: int, sizeL: real, sizeR: real,
                 count: int, ghost L: seq<int>, ghost R: seq<int>, ghost seed1: int, ghost seed2: int, selected: int)
    returns (sizeR': real)
    requires Buffers(distributed, left, right, ldatum, rdatum, |vector|)
    requires Progress(vector, distributed[..], L, R, ldatum[..], rdatum[..], sizeL, sizeR, count, seed1, seed2)
    requires nright == |R| < |vector| - 1 && right[..nright] == R && 1 <= selected < |vector| && !distributed[selected]
    modifies distributed, right, rdatum
    ensures Progress(vector, distributed[..], L, R + [selected], ldatum[..], rdatum[..], sizeL, sizeR', count - 1, seed1, seed2)
    ensures right[..nright + 1] == R + [selected] && distributed[..] == old(distributed[..])[selected := true]
  {
    ghost var d := distributed[..];
    PlaceRight(vector, d, L, R, ldatum[..], rdatum[..], sizeL, sizeR, count, seed1, seed2, selected);
    sizeR' := Place(right, nright, rdatum, vector[selected], selected);
    distributed[selected] := true;
    assert distributed[..] == d[selected := true];
  }

  /**
   * One round of the distribution loop: select the next entry, place it on
   * the left when max_delta < 0 or when max_delta == 0 and the left list is
   * the shorter one, on the right otherwise, and mark it distributed.
   */
  method Distribute(vector: seq<Key>, distributed: array<bool>, left: array<int>, right: array<int>,
                    ldatum: array<real>, rdatum: array<real>, nleft: int, nright: int, sizeL: real, sizeR: real,
                    count: int, ghost L: seq<int>, ghost R: seq<int>, ghost seed1: int, ghost seed2: int)
    returns (selected: int, nleft': int, nright': int, sizeL': real, sizeR': real, ghost L': seq<int>, ghost R': seq<int>)
    requires Buffers(distributed, left, right, ldatum, rdatum, |vector|) && count > 0
    requires Progress(vector, distributed[..], L, R, ldatum[..], rdatum[..], sizeL, sizeR, count, seed1, seed2)
    requires nleft == |L| && nright == |R| && left[..nleft] == L && right[..nright] == R
    modifies distributed, left, right, ldatum, rdatum
    ensures Progress(vector, distributed[..], L', R', ldatum[..], rdatum[..], sizeL', sizeR', count - 1, seed1, seed2)
    ensures nleft' == |L'| && nright' == |R'| && left[..nleft'] == L' && right[..nright'] == R'
    ensures selected == Chosen(vector, old(distributed[..]), Sides(old(ldatum[..]), old(rdatum[..]), sizeL, sizeR, nleft, nright), |vector|).selected
    ensures 1 <= selected < |vector| && !old(distributed[selected]) && distributed[..] == old(distributed[..])[selected := true]
    ensures GoesLeft(vector, old(distributed[..]), Sides(old(ldatum[..]), old(rdatum[..]), sizeL, sizeR, nleft, nright)) ==>
      L' == L + [selected] && R' == R
    ensures !GoesLeft(vector, old(distributed[..]), Sides(old(ldatum[..]), old(rdatum[..]), sizeL, sizeR, nleft, nright)) ==>
      L' == L && R' == R + [selected]
  {
    var maxDelta;
    selected, maxDelta := SelectNext(vector, distributed[..], ldatum[..], rdatum[..], sizeL, sizeR, nleft, nright);
    SelectionValid(vector, distributed[..], L, R, ldatum[..], rdatum[..], sizeL, sizeR, count, seed1, seed2);
    nleft', nright', sizeL', sizeR' := nleft, nright, sizeL, sizeR;
    if maxDelta < 0.0 || (maxDelta == 0.0 && nleft < nright) {
      sizeL' := ToLeft(vector, distributed, left, right, ldatum, rdatum, nleft, sizeL, sizeR, count, L, R, seed1, seed2, selected);
      L', R' := L + [selected], R;
      nleft' := nleft + 1;
    } else {
      sizeR' := ToRight(vector, distributed, left, right, ldatum, rdatum, nright, sizeL, sizeR, count, L, R, seed1, seed2, selected);
      L', R' := L, R + [selected];
      nright' := nright + 1;
    }
  }

  /** Each seed is marked distributed and heads its list. */
  method MarkSeeds(distributed: array<bool>, left: array<int>, right: array<int>, seed1: int, seed2: int)
    requires 0 <= seed1 < distributed.Length && 0 <= seed2 < distributed.Length
    requires 1 <= left.Length && 1 <= right.Length && left != right
    modifies distributed, left, right
    ensures distributed[..] == old(distributed[..])[seed1 := true][seed2 := true]
    ensures left[..1] == [seed1] && right[..1] == [seed2]
  {
    distributed[seed1] := true;
    left[0] := seed1;
    distributed[seed2] := true;
    right[0] := seed2;
  }

  /** The distribution loop: one round per undistributed entry. */
  method DistributeAll(vector: seq<Key>, distributed: array<bool>, left: array<int>, right: array<int>,
                       ldatum: array<real>, rdatum: array<real>, sizeL: real, sizeR: real, ghost seed1: int, ghost seed2: int)
    returns (nleft: int, nright: int, sizeL': real, sizeR': real, ghost L: seq<int>, ghost R: seq<int>)
    requires Buffers(distributed, left, right, ldatum, rdatum, |vector|)
    requires Progress(vector, distributed[..], [seed1], [seed2], ldatum[..], rdatum[..], sizeL, sizeR, |vector| - 3, seed1, seed2)
    requires left[..1] == [seed1] && right[..1] == [seed2]
    modifies distributed, left, right, ldatum, rdatum
    ensures Progress(vector, distributed[..], L, R, ldatum[..], rdatum[..], sizeL', sizeR', 0, seed1, seed2)
    ensures nleft == |L| && nright == |R| && left[..nleft] == L && right[..nright] == R
    ensures (L, R) == Rounds(vector, old(distributed[..]), [seed1], [seed2], |vector| - 3)
  {
    ghost var d0 := distributed[..];
    nleft, nright, sizeL', sizeR' := 1, 1, sizeL, sizeR;
    L, R := [seed1], [seed2];
    var undistributedCount := |vector| - 3;
    while undistributedCount > 0
      invariant Progress(vector, distributed[..], L, R, ldatum[..], rdatum[..], sizeL', sizeR', undistributedCount, seed1, seed2)
      invariant Rounds(vector, distributed[..], L, R, undistributedCount) == Rounds(vector, d0, [seed1], [seed2], |vector| - 3)
      invariant 0 <= undistributedCount && nleft == |L| && nright == |R| && nleft + nright + undistributedCount == |vector| - 1
      invariant 1 <= nleft && 1 <= nright && left[..nleft] == L && right[..nright] == R
      decreases undistributedCount
    {
      ghost var d, lb, rb, L0, R0, sL, sR := distributed[..], ldatum[..], rdatum[..], L, R, sizeL', sizeR';
      var selected;
      selected, nleft, nright, sizeL', sizeR', L, R :=
        Distribute(vector, distributed, left, right, ldatum, rdatum, nleft, nright, sizeL', sizeR', undistributedCount, L, R, seed1, seed2);
      RoundsStep(vector, d, L0, R0, lb, rb, sL, sR, undistributedCount, seed1, seed2, selected);
      undistributedCount := undistributedCount - 1;
    }
  }

  /** The sentinel FirstOffsetNumber after the last entry of each list. */
  method Sentinels(left: array<int>, nleft: int, right: array<int>, nright: int)
    requires 0 <= nleft < left.Length && 0 <= nright < right.Length && left != right
    modifies left, right
    ensures left[..nleft] == old(left[..nleft]) && right[..nright] == old(right[..nright])
    ensures left[nleft] == FirstOffsetNumber && right[nright] == FirstOffsetNumber
  {
    left[nleft] := FirstOffsetNumber;
    right[nright] := FirstOffsetNumber;
  }

  /**
   * signature_picksplit.  The results are the fields of GIST_SPLITVEC: both
   * lists of offsets with their lengths, each followed by the sentinel
   * FirstOffsetNumber, and the boxes of both sides.
   */
  method SignaturePicksplit(vector: seq<Key>)
    returns (left: array<int>, nleft: int, right: array<int>, nright: int, ldatum: array<real>, rdatum: array<real>)
    requires IsEntryVector(vector)
    ensures fresh(left) && fresh(right) && fresh(ldatum) && fresh(rdatum)
    ensures left.Length == |vector| && right.Length == |vector|
    ensures 1 <= nleft && 1 <= nright && nleft + nright == |vector| - 1
    ensures Partition(left[..nleft], right[..nright], |vector| - 1)
    ensures FirstWidest(vector, left[0], right[0])
    ensures left[nleft] == FirstOffsetNumber && right[nright] == FirstOffsetNumber
    ensures ldatum[..] == SideBox(vector, left[..nleft]) && rdatum[..] == SideBox(vector, right[..nright])
    ensures (left[..nleft], right[..nright]) ==
      Rounds(vector, SeedsMarked(|vector|, left[0], right[0]), [left[0]], [right[0]], |vector| - 3)
  {
    var maxoff := |vector| - 1;
    var distributed := NoneDistributed(maxoff + 1);
    left := new int[maxoff + 1];
    right := new int[maxoff + 1];

    var seed1, seed2 := PickSeeds(vector);

    var sizeL, sizeR;
    ldatum, sizeL := SeedBox(vector[seed1]);
    rdatum, sizeR := SeedBox(vector[seed2]);

    ProgressStart(vector, distributed[..], seed1, seed2);
    MarkSeeds(distributed, left, right, seed1, seed2);
    assert distributed[..] == SeedsMarked(|vector|, seed1, seed2);
    ghost var L, R;
    nleft, nright, sizeL, sizeR, L, R := DistributeAll(vector, distributed, left, right, ldatum, rdatum, sizeL, sizeR, seed1, seed2);
    ProgressDone(vector, distributed[..], L, R, ldatum[..], rdatum[..], sizeL, sizeR, seed1, seed2);
    Sentinels(left, nleft, right, nright);
  }
}
