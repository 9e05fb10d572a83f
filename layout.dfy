/** How `_chr_table` in analysis/cmd/split_vep.py lays out its work: the
    balanced slices of `split_list`, the batch count, the index lookup of
    `match`, and the set of individuals every block is narrowed to. */
module Layout {
  import opened Outcomes

  // ---------------------------------------------------------------------
  // split_list

  /** Where slice `i` of `split_list(n, k)` starts: `i` slices of the
      average length, plus one for each earlier slice that takes one of the
      `n % k` left-over items. */
  function SliceStart(n: nat, k: nat, i: nat): (s: nat)
    requires k > 0 && i <= k
    ensures s <= n
  {
    SliceStartBound(n, k, i);
    i * (n / k) + (if i < n % k then i else n % k)
  }

  lemma SliceStartBound(n: nat, k: nat, i: nat)
    requires k > 0 && i <= k
    ensures i * (n / k) + (if i < n % k then i else n % k) <= n
  {
    var q := n / k;
    MulMonotone(q, i, k);
    assert i <= k;
    assert n == k * q + n % k;
    assert q * i == i * q && q * k == k * q;
  }

  /** Slice `i` is the average length, one longer for the first `n % k`
      slices, and it starts where slice `i - 1` ended. */
  lemma SliceStep(n: nat, k: nat, i: nat)
    requires k > 0 && i < k
    ensures SliceStart(n, k, i + 1) == SliceStart(n, k, i) + n / k + (if i < n % k then 1 else 0)
  {
    assert (i + 1) * (n / k) == i * (n / k) + n / k;
  }

  /** The slices run from 0 to `n`. */
  lemma SliceEnds(n: nat, k: nat)
    requires k > 0
    ensures SliceStart(n, k, 0) == 0
    ensures SliceStart(n, k, k) == n
  {
  }

  /** Two slices differ in length by at most one, and the longer ones come
      first. */
  lemma SliceLengthsBalanced(n: nat, k: nat, i: nat, j: nat)
    requires k > 0 && i < j < k
    ensures var li := SliceStart(n, k, i + 1) - SliceStart(n, k, i);
            var lj := SliceStart(n, k, j + 1) - SliceStart(n, k, j);
            lj <= li <= lj + 1
  {
    SliceStep(n, k, i);
    SliceStep(n, k, j);
  }

  /** Starts never decrease. */
  lemma {:induction false} SliceMonotone(n: nat, k: nat, i: nat, j: nat)
    requires k > 0 && i <= j <= k
    ensures SliceStart(n, k, i) <= SliceStart(n, k, j)
    decreases j - i
  {
    if i < j {
      SliceStep(n, k, i);
      SliceMonotone(n, k, i + 1, j);
    }
  }

  /** Every position in `[0, n)` lies in exactly one slice. */
  lemma {:induction false} SliceCovers(n: nat, k: nat, p: nat) returns (i: nat)
    requires k > 0 && p < n
    ensures i < k && SliceStart(n, k, i) <= p < SliceStart(n, k, i + 1)
    ensures forall j :: 0 <= j < k && SliceStart(n, k, j) <= p < SliceStart(n, k, j + 1) ==> j == i
  {
    SliceEnds(n, k);
    i := 0;
    while SliceStart(n, k, i + 1) <= p
      invariant i < k && SliceStart(n, k, i) <= p
      decreases k - i
    {
      if i + 1 == k {
        assert false;
      }
      i := i + 1;
    }
    forall j | 0 <= j < k && SliceStart(n, k, j) <= p < SliceStart(n, k, j + 1)
      ensures j == i
    {
      if j < i {
        SliceMonotone(n, k, j + 1, i);
      } else if i < j {
        SliceMonotone(n, k, i + 1, j);
      }
    }
  }

  /** `split_list(n, k)`: the `k` pairs `(start, end)` it yields in order;
      `divmod(n, 0)` raises. */
  method SplitList(n: nat, k: nat) returns (r: Result<seq<(nat, nat)>>)
    ensures k == 0 <==> r == Err(ZeroDivisionError)
    ensures r.Ok? ==> |r.value| == k
    ensures r.Ok? ==> forall i :: 0 <= i < k ==> r.value[i] == (SliceStart(n, k, i), SliceStart(n, k, i + 1))
  {
    if k == 0 {
      return Err(ZeroDivisionError);
    }
    var avgLength, remainder := n / k, n % k;
    var start: nat := 0;
    var slices: seq<(nat, nat)> := [];
    for i := 0 to k
      invariant start == SliceStart(n, k, i)
      invariant |slices| == i
      invariant forall j :: 0 <= j < i ==> slices[j] == (SliceStart(n, k, j), SliceStart(n, k, j + 1))
    {
      SliceStep(n, k, i);
      var end := start + avgLength + (if i < remainder then 1 else 0);
      slices := slices + [(start, end)];
      start := end;
    }
    return Ok(slices);
  }

  /** The docstring's example: `split_list(5, 3)` yields (0, 2), (2, 4),
      (4, 5). */
  lemma SplitListExample()
    ensures [SliceStart(5, 3, 0), SliceStart(5, 3, 1), SliceStart(5, 3, 2), SliceStart(5, 3, 3)] == [0, 2, 4, 5]
  {
  }

  // ---------------------------------------------------------------------
  // Batches of blocks

  const MinBatch: nat := 19

  /** `max(1, floor(len(mts) / min_batch))`. */
  function BatchCount(n: nat): (k: nat)
    ensures 1 <= k
    ensures n >= MinBatch ==> k * MinBatch <= n < (k + 1) * MinBatch
    ensures n < 2 * MinBatch ==> k == 1
  {
    if n / MinBatch < 1 then 1 else n / MinBatch
  }

  /** With at least 19 blocks, every batch holds between 19 and 38 of them. */
  lemma BatchSizes(n: nat, i: nat)
    requires n >= MinBatch && i < BatchCount(n)
    ensures MinBatch <= SliceStart(n, BatchCount(n), i + 1) - SliceStart(n, BatchCount(n), i) <= 2 * MinBatch
  {
    var k := BatchCount(n);
    SliceStep(n, k, i);
    assert MinBatch <= n / k by {
      assert k * MinBatch <= n;
      DivAtLeast(n, k, MinBatch);
    }
    assert n / k < 2 * MinBatch by {
      assert n < (k + 1) * MinBatch <= 2 * k * MinBatch;
      DivBelow(n, k, 2 * MinBatch);
    }
  }

  lemma DivAtLeast(n: nat, k: nat, m: nat)
    requires k > 0 && k * m <= n
    ensures m <= n / k
  {
    var q := n / k;
    assert n == k * q + n % k;
    // k * m <= n < k * (q + 1)
    MulMonotone(k, q + 1, m);
  }

  lemma DivBelow(n: nat, k: nat, m: nat)
    requires k > 0 && n < k * m
    ensures n / k < m
  {
    var q := n / k;
    assert n == k * q + n % k;
    // k * q <= n < k * m
    MulMonotone(k, m, q);
  }

  lemma MulMonotone(k: nat, a: nat, b: nat)
    ensures a <= b ==> k * a <= k * b
  {
    if a <= b {
      assert k * b == k * a + k * (b - a);
    }
  }

  // ---------------------------------------------------------------------
  // match

  /** `{x: i for i, x in enumerate(b)}`: a later duplicate overwrites an
      earlier one, so each value maps to its last index. */
  function IndexMap<T(==,!new)>(b: seq<T>): (m: map<T, nat>)
    ensures forall x :: x in m <==> x in b
    ensures forall x :: x in m ==> m[x] < |b| && b[m[x]] == x
    ensures forall x, j :: x in m && m[x] < j < |b| ==> b[j] != x
  {
    if b == [] then map[]
    else
      var last := |b| - 1;
      var prev := IndexMap(b[..last]);
      assert b == b[..last] + [b[last]];
      prev[b[last] := last]
  }

  /** `match(a, b)`: for each item of `a` its last index in `b`, or `None`. */
  function Match<T(==,!new)>(a: seq<T>, b: seq<T>): (r: seq<Option<nat>>)
    ensures |r| == |a|
    ensures forall i :: 0 <= i < |a| ==> (r[i].None? <==> a[i] !in b)
    ensures forall i :: 0 <= i < |a| && r[i].Some? ==>
              r[i].value < |b| && b[r[i].value] == a[i]
              && forall j :: r[i].value < j < |b| ==> b[j] != a[i]
  {
    var m := IndexMap(b);
    seq(|a|, i requires 0 <= i < |a| => if a[i] in m then Some(m[a[i]]) else None)
  }

  /** Without duplicates in `b`, `match` is the inverse of indexing `b`. */
  lemma MatchDistinct<T(!new)>(a: seq<T>, b: seq<T>, i: nat)
    requires i < |a| && a[i] in b
    requires forall p, q :: 0 <= p < q < |b| ==> b[p] != b[q]
    ensures Match(a, b)[i].Some?
    ensures forall j :: 0 <= j < |b| && b[j] == a[i] ==> Match(a, b)[i].value == j
  {
    var r := Match(a, b);
    forall j | 0 <= j < |b| && b[j] == a[i]
      ensures r[i].value == j
    {
      assert b[j] == b[r[i].value];
    }
  }

  // ---------------------------------------------------------------------
  // Individuals kept for every block

  /** `x` is listed by every block. */
  predicate InAll(x: string, blocks: seq<seq<string>>)
  {
    forall j :: 0 <= j < |blocks| ==> x in blocks[j]
  }

  function Intersection(blocks: seq<seq<string>>): (s: set<string>)
    requires blocks != []
    ensures forall x :: x in s <==> InAll(x, blocks)
  {
    var rest := blocks[1..];
    if rest == [] then set x | x in blocks[0]
    else
      var s := Intersection(rest);
      assert forall x :: InAll(x, blocks) <==> x in blocks[0] && InAll(x, rest) by {
        forall x ensures InAll(x, blocks) <==> x in blocks[0] && InAll(x, rest) {
          if x in blocks[0] && InAll(x, rest) {
            forall j | 0 <= j < |blocks| ensures x in blocks[j] {
              if j > 0 { assert blocks[j] == rest[j - 1]; }
            }
          }
          if InAll(x, blocks) {
            forall j | 0 <= j < |rest| ensures x in rest[j] {
              assert rest[j] == blocks[j + 1];
            }
          }
        }
      }
      (set x | x in blocks[0]) * s
  }

  /** `common_pats`: the individuals of every block, narrowed to the
      allow-list when it is non-empty (an empty or absent allow-list is
      falsy and narrows nothing); `reduce` over no blocks raises. */
  function CommonIndividuals(blocks: seq<seq<string>>, eids: seq<string>): (r: Result<set<string>>)
    ensures r.Err? <==> blocks == []
    ensures r.Ok? ==> forall x :: x in r.value <==> InAll(x, blocks) && (eids == [] || x in eids)
  {
    if blocks == [] then Err(EmptyReduce)
    else
      var common := Intersection(blocks);
      Ok(if eids == [] then common else common * set x | x in eids)
  }

  /** `list(common_pats)`: the common set in some order, each member once. */
  method Enumerate(s: set<string>) returns (xs: seq<string>)
    ensures |xs| == |s|
    ensures forall x :: x in xs <==> x in s
    ensures forall p, q :: 0 <= p < q < |xs| ==> xs[p] != xs[q]
  {
    xs := [];
    var rest := s;
    while rest != {}
      invariant rest <= s
      invariant forall x :: x in xs <==> x in s && x !in rest
      invariant |xs| + |rest| == |s|
      invariant forall p, q :: 0 <= p < q < |xs| ==> xs[p] != xs[q]
      decreases |rest|
    {
      var x :| x in rest;
      xs := xs + [x];
      rest := rest - {x};
    }
  }

  /** The column choice of `_chr_table`: one order of the common
      individuals, and for each block the index of each of them in that
      block's sample list. Every index is defined and picks the same
      individual in every block. */
  method UnifyColumns(blocks: seq<seq<string>>, eids: seq<string>)
    returns (r: Result<(seq<string>, seq<seq<Option<nat>>>)>)
    ensures r.Err? <==> blocks == []
    ensures r.Ok? ==> CommonIndividuals(blocks, eids).Ok?
    ensures r.Ok? ==> var (order, indices) := r.value;
              && (forall x :: x in order <==> x in CommonIndividuals(blocks, eids).value)
              && (forall p, q :: 0 <= p < q < |order| ==> order[p] != order[q])
              && |indices| == |blocks|
              && (forall j :: 0 <= j < |blocks| ==> indices[j] == Match(order, blocks[j]))
              && (forall j, i :: 0 <= j < |blocks| && 0 <= i < |order| ==>
                    indices[j][i].Some? && blocks[j][indices[j][i].value] == order[i])
  {
    var common :- CommonIndividuals(blocks, eids);
    var order := Enumerate(common);
    var indices: seq<seq<Option<nat>>> := [];
    for j := 0 to |blocks|
      invariant |indices| == j
      invariant forall j' :: 0 <= j' < j ==> indices[j'] == Match(order, blocks[j'])
    {
      indices := indices + [Match(order, blocks[j])];
    }
    forall j, i | 0 <= j < |blocks| && 0 <= i < |order|
      ensures indices[j][i].Some? && blocks[j][indices[j][i].value] == order[i]
    {
      assert InAll(order[i], blocks);
    }
    return Ok((order, indices));
  }
}
