/** How a generated mock picks its questions (crud.py:58-88): the requested
    total is split across the listed tech stacks, earlier stacks taking the
    remainder one question each, and each stack contributes a random draw of
    at most its share of its own questions. Nothing is moved between stacks
    when one runs short.

    `random.sample` is modelled as a nondeterministic choice of distinct
    positions in the stack's question list: any such choice is an outcome the
    code can produce, and every property below holds for all of them. */
module Allocation {
  import opened Common
  import opened Models

  /** The share of stack `i` out of `k` stacks when `n` questions are
      requested (crud.py:69-75). */
  function Target(n: nat, k: nat, i: nat): (r: nat)
    requires k > 0
    ensures n / k <= r <= n / k + 1
    ensures n % k <= i ==> r == n / k
  {
    n / k + (if i < n % k then 1 else 0)
  }

  /** Shares of the stacks at positions 0 .. m-1. */
  function TargetSum(n: nat, k: nat, m: nat): nat
    requires k > 0
  {
    if m == 0 then 0 else TargetSum(n, k, m - 1) + Target(n, k, m - 1)
  }

  /** The first `m` shares add up to `m * (n / k)` plus one for each of them
      that falls among the first `n % k`. */
  lemma {:induction false} TargetSumPrefix(n: nat, k: nat, m: nat)
    requires 0 < k && m <= k
    ensures TargetSum(n, k, m) == m * (n / k) + Min(m, n % k)
  {
    if m > 0 {
      TargetSumPrefix(n, k, m - 1);
      var q := n / k;
      assert (m - 1) * q + q == m * q;
    }
  }

  /** The shares of all stacks add up to exactly the requested total. */
  lemma TargetsSumToTotal(n: nat, k: nat)
    requires k > 0
    ensures TargetSum(n, k, k) == n
  {
    TargetSumPrefix(n, k, k);
    assert n == k * (n / k) + n % k;
  }

  /** Shares never grow along the input order and differ by at most one:
      the extra questions go to the earliest stacks. */
  lemma TargetsFair(n: nat, k: nat, i: nat, j: nat)
    requires i <= j < k
    ensures Target(n, k, j) <= Target(n, k, i) <= Target(n, k, j) + 1
    ensures Target(n, k, i) == n / k + 1 <==> i < n % k
  {
  }

  /** The questions of one stack, in table order (crud.py:78). */
  function StackPool(questions: seq<Question>, stackId: int): (r: seq<Question>)
    ensures |r| <= |questions|
  {
    if |questions| == 0 then []
    else (if questions[0].techStackId == stackId then [questions[0]] else [])
         + StackPool(questions[1..], stackId)
  }

  /** A stack's pool holds exactly the table's questions of that stack. */
  lemma {:induction false} StackPoolMembers(questions: seq<Question>, stackId: int)
    ensures forall q :: q in StackPool(questions, stackId) <==> q in questions && q.techStackId == stackId
  {
    if |questions| > 0 {
      StackPoolMembers(questions[1..], stackId);
      assert questions == [questions[0]] + questions[1..];
    }
  }

  /** A stack that no question names has an empty pool. */
  lemma {:induction false} StackPoolEmpty(questions: seq<Question>, stackId: int)
    requires forall q :: q in questions ==> q.techStackId != stackId
    ensures StackPool(questions, stackId) == []
  {
    if |questions| > 0 {
      assert questions[0] in questions;
      StackPoolEmpty(questions[1..], stackId);
    }
  }

  /** No two rows share an id. */
  ghost predicate DistinctIds(qs: seq<Question>) {
    forall i, j :: 0 <= i < j < |qs| ==> qs[i].id != qs[j].id
  }

  /** A stack's pool keeps the ids of the table apart. */
  lemma {:induction false} StackPoolDistinct(questions: seq<Question>, stackId: int)
    requires DistinctIds(questions)
    ensures DistinctIds(StackPool(questions, stackId))
  {
    if |questions| > 0 {
      var tail := questions[1..];
      StackPoolDistinct(tail, stackId);
      StackPoolMembers(tail, stackId);
      var rest := StackPool(tail, stackId);
      if questions[0].techStackId == stackId {
        forall q | q in rest ensures q.id != questions[0].id {
          var j :| 0 <= j < |tail| && tail[j] == q;
          assert questions[j + 1] == q;
        }
      }
    }
  }

  /** A draw never holds more positions than its population has, and a
      draw of any `k` up to the population's size exists: `random.sample`
      has an outcome exactly when `k` does not exceed the population. */
  lemma {:induction false} SampleBound(pos: seq<nat>, size: nat, k: nat)
    ensures IsDraw(pos, size, k) ==> k <= size
    ensures k <= size ==> IsDraw(seq(k, j requires 0 <= j < k => j), size, k)
    decreases |pos|
  {
    if IsDraw(pos, size, k) && |pos| > 0 {
      var last := pos[|pos| - 1];
      var top: nat := size - 1;
      var rest: seq<nat> := seq(|pos| - 1, j requires 0 <= j < |pos| - 1 => if pos[j] == top then last else pos[j]);
      forall j, l | 0 <= j < l < |rest| ensures rest[j] != rest[l] {
        assert pos[j] != pos[l] && pos[j] != last && pos[l] != last;
      }
      forall j | 0 <= j < |rest| ensures rest[j] < top {
        assert pos[j] != last;
      }
      SampleBound(rest, top, |rest|);
    }
  }

  /** Positions into a population of `size`, none of them twice: what
      `random.sample` returns, read as indices into its population. */
  predicate IsSample(pos: seq<nat>, size: nat) {
    && (forall j :: 0 <= j < |pos| ==> pos[j] < size)
    && (forall j, l :: 0 <= j < l < |pos| ==> pos[j] != pos[l])
  }

  /** `random.sample(pool, k)` draws `k` of the `size` positions of its
      population, none twice. */
  predicate IsDraw(pos: seq<nat>, size: nat, k: nat) {
    |pos| == k && IsSample(pos, size)
  }

  /** The elements of `pool` at the drawn positions. */
  function Pick(pool: seq<Question>, pos: seq<nat>): (r: seq<Question>)
    requires forall j :: 0 <= j < |pos| ==> pos[j] < |pool|
    ensures |r| == |pos|
    ensures forall q :: q in r ==> q in pool
  {
    seq(|pos|, j requires 0 <= j < |pos| => pool[pos[j]])
  }

  /** What stack `i` contributes: all of its questions, or its share when it
      has more (crud.py:82). */
  function Quota(pools: seq<seq<Question>>, n: nat, i: nat): (r: nat)
    requires i < |pools|
    ensures r <= |pools[i]| && r <= Target(n, |pools|, i)
    ensures r == |pools[i]| || r == Target(n, |pools|, i)
  {
    Min(|pools[i]|, Target(n, |pools|, i))
  }

  function QuotaSum(pools: seq<seq<Question>>, n: nat, m: nat): nat
    requires m <= |pools|
  {
    if m == 0 then 0 else QuotaSum(pools, n, m - 1) + Quota(pools, n, m - 1)
  }

  /** The questions of each listed stack, in list order. */
  function Pools(questions: seq<Question>, ids: seq<int>): (r: seq<seq<Question>>)
    ensures |r| == |ids|
    ensures forall i :: 0 <= i < |ids| ==> r[i] == StackPool(questions, ids[i])
  {
    seq(|ids|, i requires 0 <= i < |ids| => StackPool(questions, ids[i]))
  }

  /** One sample from each of the first |draws| pools. */
  ghost predicate DrawsValid(pools: seq<seq<Question>>, draws: seq<seq<nat>>) {
    && |draws| <= |pools|
    && forall i :: 0 <= i < |draws| ==> IsSample(draws[i], |pools[i]|)
  }

  /** The draws made for the first |draws| stacks are legal outcomes of
      `random.sample` with each stack's quota. */
  ghost predicate DrawsFit(pools: seq<seq<Question>>, n: nat, draws: seq<seq<nat>>) {
    && DrawsValid(pools, draws)
    && forall i :: 0 <= i < |draws| ==> |draws[i]| == Quota(pools, n, i)
  }

  /** What pool `i` adds to the mock under its draw. */
  ghost function Slice(pools: seq<seq<Question>>, draws: seq<seq<nat>>, i: nat): seq<Question>
    requires DrawsValid(pools, draws) && i < |draws|
  {
    Pick(pools[i], draws[i])
  }

  /** The mock's questions after the first `m` stacks: their slices
      concatenated in input order (crud.py:74-82). */
  ghost function SelectedUpTo(pools: seq<seq<Question>>, draws: seq<seq<nat>>, m: nat): seq<Question>
    requires DrawsValid(pools, draws) && m <= |draws|
  {
    if m == 0 then []
    else SelectedUpTo(pools, draws, m - 1) + Slice(pools, draws, m - 1)
  }

  /** The mock's questions once every drawn stack has contributed. */
  ghost function Selected(pools: seq<seq<Question>>, draws: seq<seq<nat>>): seq<Question>
    requires DrawsValid(pools, draws)
  {
    SelectedUpTo(pools, draws, |draws|)
  }

  /** Every question of a slice comes from its pool, and a pool without
      repeated ids gives a slice without repeated ids. */
  lemma SliceFacts(pools: seq<seq<Question>>, draws: seq<seq<nat>>, i: nat)
    requires DrawsValid(pools, draws) && i < |draws|
    ensures forall q :: q in Slice(pools, draws, i) ==> q in pools[i]
    ensures DistinctIds(pools[i]) ==> DistinctIds(Slice(pools, draws, i))
  {
    var s := Slice(pools, draws, i);
    if DistinctIds(pools[i]) {
      forall j, l | 0 <= j < l < |s| ensures s[j].id != s[l].id {
        assert s[j] == pools[i][draws[i][j]] && s[l] == pools[i][draws[i][l]];
      }
    }
  }

  /** Each slice has exactly its stack's quota of questions. */
  lemma SliceLength(pools: seq<seq<Question>>, n: nat, draws: seq<seq<nat>>, i: nat)
    requires DrawsFit(pools, n, draws) && i < |draws|
    ensures |Slice(pools, draws, i)| == Quota(pools, n, i)
  {
  }

  /** A stack without questions adds nothing. */
  lemma EmptyStackAddsNothing(questions: seq<Question>, ids: seq<int>, n: nat, draws: seq<seq<nat>>, i: nat)
    requires DrawsFit(Pools(questions, ids), n, draws) && i < |draws|
    requires forall q :: q in questions ==> q.techStackId != ids[i]
    ensures Slice(Pools(questions, ids), draws, i) == []
  {
    StackPoolEmpty(questions, ids[i]);
  }

  /** Stack `i` contributes `min(available, target)` of its own questions,
      never one twice when the table repeats no id (crud.py:75-82). */
  lemma SliceOfStack(questions: seq<Question>, ids: seq<int>, n: nat, draws: seq<seq<nat>>, i: nat)
    requires DrawsFit(Pools(questions, ids), n, draws) && i < |draws|
    ensures |Slice(Pools(questions, ids), draws, i)| == Min(|StackPool(questions, ids[i])|, Target(n, |ids|, i))
    ensures forall q :: q in Slice(Pools(questions, ids), draws, i) ==> q in questions && q.techStackId == ids[i]
    ensures DistinctIds(questions) ==> DistinctIds(Slice(Pools(questions, ids), draws, i))
  {
    var pools := Pools(questions, ids);
    assert pools[i] == StackPool(questions, ids[i]);
    SliceLength(pools, n, draws, i);
    SliceFacts(pools, draws, i);
    StackPoolMembers(questions, ids[i]);
    if DistinctIds(questions) {
      StackPoolDistinct(questions, ids[i]);
    }
  }

  /** The selection after `m` stacks is as long as their quotas together. */
  lemma {:induction false} SelectedLength(pools: seq<seq<Question>>, n: nat, draws: seq<seq<nat>>, m: nat)
    requires DrawsFit(pools, n, draws) && m <= |draws|
    ensures |SelectedUpTo(pools, draws, m)| == QuotaSum(pools, n, m)
  {
    if m > 0 {
      SelectedLength(pools, n, draws, m - 1);
      SliceLength(pools, n, draws, m - 1);
    }
  }

  /** Slice `i` follows the slices of the stacks before it, whatever the
      later stacks add. */
  lemma {:induction false} SlicePlacement(pools: seq<seq<Question>>, draws: seq<seq<nat>>, m: nat, i: nat, j: nat)
    requires DrawsValid(pools, draws) && i < m <= |draws|
    requires j < |Slice(pools, draws, i)|
    ensures |SelectedUpTo(pools, draws, i)| + j < |SelectedUpTo(pools, draws, m)|
    ensures SelectedUpTo(pools, draws, m)[|SelectedUpTo(pools, draws, i)| + j] == Slice(pools, draws, i)[j]
  {
    var prefix := SelectedUpTo(pools, draws, m - 1);
    var last := Slice(pools, draws, m - 1);
    if i < m - 1 {
      SlicePlacement(pools, draws, m - 1, i, j);
      ConcatLeft(prefix, last, SelectedUpTo(pools, draws, m), |SelectedUpTo(pools, draws, i)| + j);
    } else {
      ConcatRight(prefix, last, SelectedUpTo(pools, draws, m), j);
    }
  }

  /** Concatenation keeps the positions of its left part ... */
  lemma ConcatLeft<T>(a: seq<T>, b: seq<T>, whole: seq<T>, k: nat)
    requires whole == a + b && k < |a|
    ensures k < |whole| && whole[k] == a[k]
  {
  }

  /** ... and shifts those of its right part by the left part's length. */
  lemma ConcatRight<T>(a: seq<T>, b: seq<T>, whole: seq<T>, k: nat)
    requires whole == a + b && k < |b|
    ensures |a| + k < |whole| && whole[|a| + k] == b[k]
  {
  }

  /** Every question selected after `m` stacks comes from one of their
      pools. */
  lemma {:induction false} SelectedFromPools(pools: seq<seq<Question>>, draws: seq<seq<nat>>, m: nat)
    requires DrawsValid(pools, draws) && m <= |draws|
    ensures forall q :: q in SelectedUpTo(pools, draws, m) ==> exists i :: 0 <= i < m && q in pools[i]
  {
    if m > 0 {
      SelectedFromPools(pools, draws, m - 1);
      SliceFacts(pools, draws, m - 1);
    }
  }

  /** No pool repeats an id, and no id is in two pools. */
  ghost predicate PoolsApart(pools: seq<seq<Question>>) {
    && (forall i :: 0 <= i < |pools| ==> DistinctIds(pools[i]))
    && (forall i, j, x: Question, y: Question :: 0 <= i < j < |pools| && x in pools[i] && y in pools[j] ==> x.id != y.id)
  }

  /** Pools that keep ids apart give a selection that never repeats a
      question. */
  lemma {:induction false} SelectedDistinct(pools: seq<seq<Question>>, draws: seq<seq<nat>>, m: nat)
    requires DrawsValid(pools, draws) && PoolsApart(pools) && m <= |draws|
    ensures DistinctIds(SelectedUpTo(pools, draws, m))
  {
    if m > 0 {
      SelectedDistinct(pools, draws, m - 1);
      SelectedFromPools(pools, draws, m - 1);
      SliceFacts(pools, draws, m - 1);
      var a := SelectedUpTo(pools, draws, m - 1);
      var b := Slice(pools, draws, m - 1);
      forall x, y | x in a && y in b ensures x.id != y.id {
        var p :| 0 <= p < m - 1 && x in pools[p];
      }
      ConcatDistinct(a, b);
    }
  }

  /** Two lists without repeated ids, sharing no id, concatenate to a list
      without repeated ids. */
  lemma ConcatDistinct(a: seq<Question>, b: seq<Question>)
    requires DistinctIds(a) && DistinctIds(b)
    requires forall x, y :: x in a && y in b ==> x.id != y.id
    ensures DistinctIds(a + b)
  {
    forall i, j | 0 <= i < j < |a + b| ensures (a + b)[i].id != (a + b)[j].id {
      if j < |a| {
      } else if |a| <= i {
        assert (a + b)[i] == b[i - |a|] && (a + b)[j] == b[j - |a|];
      } else {
        assert (a + b)[i] in a && (a + b)[j] in b;
      }
    }
  }

  /** Two rows of a table without repeated ids that share an id are the
      same row. */
  lemma SameIdSameRow(questions: seq<Question>, a: Question, b: Question)
    requires DistinctIds(questions) && a in questions && b in questions && a.id == b.id
    ensures a == b
  {
    var i :| 0 <= i < |questions| && questions[i] == a;
    var j :| 0 <= j < |questions| && questions[j] == b;
    if i < j || j < i {
      assert false;
    }
  }

  /** The pools of distinct stacks of a table without repeated ids keep ids
      apart. */
  lemma StackPoolsApart(questions: seq<Question>, ids: seq<int>)
    requires DistinctIds(questions) && forall i, j :: 0 <= i < j < |ids| ==> ids[i] != ids[j]
    ensures PoolsApart(Pools(questions, ids))
  {
    var pools := Pools(questions, ids);
    forall i | 0 <= i < |pools| ensures DistinctIds(pools[i]) {
      StackPoolDistinct(questions, ids[i]);
    }
    forall i, j, x: Question, y: Question | 0 <= i < j < |pools| && x in pools[i] && y in pools[j] ensures x.id != y.id {
      StackPoolMembers(questions, ids[i]);
      StackPoolMembers(questions, ids[j]);
      if x.id == y.id {
        SameIdSameRow(questions, x, y);
      }
    }
  }

  /** Quotas never exceed shares, and match them when every stack holds at
      least its share. */
  lemma {:induction false} QuotaSumBounds(pools: seq<seq<Question>>, n: nat, m: nat)
    requires 0 < |pools| && m <= |pools|
    ensures QuotaSum(pools, n, m) <= TargetSum(n, |pools|, m)
    ensures (forall i :: 0 <= i < m ==> Target(n, |pools|, i) <= |pools[i]|)
            ==> QuotaSum(pools, n, m) == TargetSum(n, |pools|, m)
  {
    if m > 0 {
      QuotaSumBounds(pools, n, m - 1);
    }
  }

  /** One stack short of its share leaves the quotas below the shares. */
  lemma {:induction false} QuotaSumShort(pools: seq<seq<Question>>, n: nat, m: nat, i: nat)
    requires 0 < |pools| && i < m <= |pools|
    requires |pools[i]| < Target(n, |pools|, i)
    ensures QuotaSum(pools, n, m) < TargetSum(n, |pools|, m)
  {
    if i < m - 1 {
      QuotaSumShort(pools, n, m - 1, i);
    } else {
      QuotaSumBounds(pools, n, m - 1);
    }
  }

  /** The whole selection never exceeds the requested total, and reaches it
      exactly when no listed stack is short of its share; one short stack
      leaves it below the total, nothing being moved elsewhere. */
  lemma SelectedCount(pools: seq<seq<Question>>, n: nat, draws: seq<seq<nat>>)
    requires DrawsFit(pools, n, draws) && |draws| == |pools|
    ensures |Selected(pools, draws)| <= n
    ensures 0 < |pools| && (forall i :: 0 <= i < |pools| ==> Target(n, |pools|, i) <= |pools[i]|)
            ==> |Selected(pools, draws)| == n
    ensures 0 < |pools| && (exists i :: 0 <= i < |pools| && |pools[i]| < Target(n, |pools|, i))
            ==> |Selected(pools, draws)| < n
  {
    SelectedLength(pools, n, draws, |draws|);
    if |pools| > 0 {
      QuotaSumBounds(pools, n, |pools|);
      TargetsSumToTotal(n, |pools|);
      if exists i :: 0 <= i < |pools| && |pools[i]| < Target(n, |pools|, i) {
        var i :| 0 <= i < |pools| && |pools[i]| < Target(n, |pools|, i);
        QuotaSumShort(pools, n, |pools|, i);
      }
    }
  }

  /** The selection loop of crud.py:66-82: an empty stack list selects
      nothing; otherwise each stack in turn contributes a random draw of its
      quota, appended to the selection. */
  method SelectQuestions(questions: seq<Question>, ids: seq<int>, n: nat)
    returns (selected: seq<Question>, ghost draws: seq<seq<nat>>)
    ensures |draws| == |ids| && DrawsFit(Pools(questions, ids), n, draws)
    ensures selected == Selected(Pools(questions, ids), draws)
    ensures |ids| == 0 ==> selected == []
    ensures |selected| <= n
    ensures 0 < |ids| && (forall i :: 0 <= i < |ids| ==> Target(n, |ids|, i) <= |StackPool(questions, ids[i])|)
            ==> |selected| == n
    ensures 0 < |ids| && (exists i :: 0 <= i < |ids| && |StackPool(questions, ids[i])| < Target(n, |ids|, i))
            ==> |selected| < n
    ensures forall q :: q in selected ==> q in questions && q.techStackId in ids
    ensures DistinctIds(questions) && (forall i, j :: 0 <= i < j < |ids| ==> ids[i] != ids[j])
            ==> DistinctIds(selected)
  {
    selected, draws := [], [];
    if |ids| == 0 {
      return;
    }
    var base := n / |ids|;
    var remainder := n % |ids|;
    for i := 0 to |ids|
      invariant |draws| == i
      invariant DrawsFit(Pools(questions, ids), n, draws)
      invariant selected == Selected(Pools(questions, ids), draws)
    {
      var limit := base + (if i < remainder then 1 else 0);
      var pool := StackPool(questions, ids[i]);
      assert limit == Target(n, |ids|, i);
      var pos: seq<nat> := [];
      if |pool| > 0 {
        var k: nat := Min(|pool|, limit);
        assert k == Quota(Pools(questions, ids), n, i);
        ghost var first: seq<nat> := seq(k, j requires 0 <= j < k => j);
        SampleBound(first, |pool|, k);
        pos :| IsDraw(pos, |pool|, k);
        assert IsDraw(pos, |pool|, k);
        selected := selected + Pick(pool, pos);
      } else {
        assert Pick(pool, pos) == [];
      }
      DrawStep(questions, ids, n, draws, pos);
      draws := draws + [pos];
    }
    SelectionSummary(questions, ids, n, draws);
  }

  /** One more stack drawn: its slice goes at the end of the selection. */
  lemma DrawStep(questions: seq<Question>, ids: seq<int>, n: nat, draws: seq<seq<nat>>, pos: seq<nat>)
    requires DrawsFit(Pools(questions, ids), n, draws) && |draws| < |ids|
    requires IsDraw(pos, |StackPool(questions, ids[|draws|])|, Quota(Pools(questions, ids), n, |draws|))
    ensures DrawsFit(Pools(questions, ids), n, draws + [pos])
    ensures Selected(Pools(questions, ids), draws + [pos])
         == Selected(Pools(questions, ids), draws) + Pick(StackPool(questions, ids[|draws|]), pos)
  {
    var pools := Pools(questions, ids);
    assert pools[|draws|] == StackPool(questions, ids[|draws|]);
    DrawsFitExtend(pools, n, draws, pos);
    SelectedExtend(pools, draws, pos);
  }

  /** A draw of the next pool's quota extends a fitting list of draws. */
  lemma DrawsFitExtend(pools: seq<seq<Question>>, n: nat, draws: seq<seq<nat>>, pos: seq<nat>)
    requires DrawsFit(pools, n, draws) && |draws| < |pools|
    requires IsDraw(pos, |pools[|draws|]|, Quota(pools, n, |draws|))
    ensures DrawsFit(pools, n, draws + [pos])
  {
    var longer := draws + [pos];
    forall i | 0 <= i < |longer|
      ensures IsSample(longer[i], |pools[i]|) && |longer[i]| == Quota(pools, n, i)
    {
      if i < |draws| {
        assert longer[i] == draws[i];
      }
    }
  }

  /** Appending a draw appends its slice and leaves the earlier ones alone. */
  lemma SelectedExtend(pools: seq<seq<Question>>, draws: seq<seq<nat>>, pos: seq<nat>)
    requires DrawsValid(pools, draws) && DrawsValid(pools, draws + [pos])
    ensures Selected(pools, draws + [pos]) == Selected(pools, draws) + Pick(pools[|draws|], pos)
  {
    var longer := draws + [pos];
    assert forall i :: 0 <= i < |draws| ==> longer[i] == draws[i];
    SelectedUpToStable(pools, draws, longer, |draws|);
  }

  /** Later draws leave the selection of the earlier stacks alone. */
  lemma {:induction false} SelectedUpToStable(pools: seq<seq<Question>>, draws: seq<seq<nat>>, longer: seq<seq<nat>>, m: nat)
    requires DrawsValid(pools, draws) && DrawsValid(pools, longer)
    requires m <= |draws| <= |longer| && forall i :: 0 <= i < |draws| ==> longer[i] == draws[i]
    ensures SelectedUpTo(pools, longer, m) == SelectedUpTo(pools, draws, m)
  {
    if m > 0 {
      SelectedUpToStable(pools, draws, longer, m - 1);
      assert longer[m - 1] == draws[m - 1];
    }
  }

  /** The properties of a complete selection, gathered for its callers. */
  lemma SelectionSummary(questions: seq<Question>, ids: seq<int>, n: nat, draws: seq<seq<nat>>)
    requires DrawsFit(Pools(questions, ids), n, draws) && |draws| == |ids|
    ensures |Selected(Pools(questions, ids), draws)| <= n
    ensures 0 < |ids| && (forall i :: 0 <= i < |ids| ==> Target(n, |ids|, i) <= |StackPool(questions, ids[i])|)
            ==> |Selected(Pools(questions, ids), draws)| == n
    ensures 0 < |ids| && (exists i :: 0 <= i < |ids| && |StackPool(questions, ids[i])| < Target(n, |ids|, i))
            ==> |Selected(Pools(questions, ids), draws)| < n
    ensures forall q :: q in Selected(Pools(questions, ids), draws) ==> q in questions && q.techStackId in ids
    ensures DistinctIds(questions) && (forall i, j :: 0 <= i < j < |ids| ==> ids[i] != ids[j])
            ==> DistinctIds(Selected(Pools(questions, ids), draws))
  {
    var pools := Pools(questions, ids);
    SelectedCount(pools, n, draws);
    SelectedFromPools(pools, draws, |draws|);
    forall q | q in Selected(pools, draws) ensures q in questions && q.techStackId in ids {
      var i :| 0 <= i < |draws| && q in pools[i];
      StackPoolMembers(questions, ids[i]);
    }
    if DistinctIds(questions) && (forall i, j :: 0 <= i < j < |ids| ==> ids[i] != ids[j]) {
      StackPoolsApart(questions, ids);
      SelectedDistinct(pools, draws, |draws|);
    }
  }
}

/** Two generation requests worked through on small tables. */
module AllocationScenarios {
  import opened Common
  import opened Models
  import opened Allocation

  function Q(id: int, stackId: int): Question {
    Question(id, "", None, None, stackId)
  }

  /** Over two stacks, each holding at least its half of the requested
      total `n`, the mock gets exactly `n` questions, split evenly when `n`
      is even. */
  lemma {:induction false} TwoFullStacks(questions: seq<Question>, n: nat, draws: seq<seq<nat>>)
    requires DrawsFit(Pools(questions, [1, 2]), n, draws) && |draws| == 2
    requires Target(n, 2, 0) <= |StackPool(questions, 1)| && Target(n, 2, 1) <= |StackPool(questions, 2)|
    ensures |Selected(Pools(questions, [1, 2]), draws)| == n
    ensures |Slice(Pools(questions, [1, 2]), draws, 0)| == Target(n, 2, 0)
    ensures |Slice(Pools(questions, [1, 2]), draws, 1)| == Target(n, 2, 1)
    ensures n % 2 == 0 ==> |Slice(Pools(questions, [1, 2]), draws, 0)| == |Slice(Pools(questions, [1, 2]), draws, 1)| == n / 2
  {
    var pools := Pools(questions, [1, 2]);
    forall i | 0 <= i < |pools| ensures Target(n, |pools|, i) <= |pools[i]| {
      if i == 0 { } else { }
    }
    SelectedCount(pools, n, draws);
    SliceLength(pools, n, draws, 0);
    SliceLength(pools, n, draws, 1);
  }

  /** The table of test_main.py:83-115: stack 1 holds two questions, stack 2
      one. */
  lemma TestTablePools()
    ensures StackPool([Q(1, 1), Q(2, 1), Q(3, 2)], 1) == [Q(1, 1), Q(2, 1)]
    ensures StackPool([Q(1, 1), Q(2, 1), Q(3, 2)], 2) == [Q(3, 2)]
  {
  }

  /** Asking that table for two questions over [1, 2] gives one from each,
      two in all (test_main.py:83-115). */
  lemma TwoFromTwoStacks(draws: seq<seq<nat>>)
    requires DrawsFit(Pools([Q(1, 1), Q(2, 1), Q(3, 2)], [1, 2]), 2, draws) && |draws| == 2
    ensures |Selected(Pools([Q(1, 1), Q(2, 1), Q(3, 2)], [1, 2]), draws)| == 2
    ensures |Slice(Pools([Q(1, 1), Q(2, 1), Q(3, 2)], [1, 2]), draws, 0)| == 1
    ensures |Slice(Pools([Q(1, 1), Q(2, 1), Q(3, 2)], [1, 2]), draws, 1)| == 1
  {
    TestTablePools();
    TwoFullStacks([Q(1, 1), Q(2, 1), Q(3, 2)], 2, draws);
  }

  /** Stack 1 holds two questions and stack 2 three; asking for four takes
      both of stack 1's and two of stack 2's three. */
  lemma FourFromTwoStacks(draws: seq<seq<nat>>)
    requires DrawsFit(Pools(FiveQuestions(), [1, 2]), 4, draws) && |draws| == 2
    ensures |Selected(Pools(FiveQuestions(), [1, 2]), draws)| == 4
    ensures |Slice(Pools(FiveQuestions(), [1, 2]), draws, 0)| == 2
    ensures |Slice(Pools(FiveQuestions(), [1, 2]), draws, 1)| == 2
  {
    FivePools();
    TwoFullStacks(FiveQuestions(), 4, draws);
  }

  function FiveQuestions(): seq<Question> {
    [Q(1, 1), Q(2, 1), Q(3, 2), Q(4, 2), Q(5, 2)]
  }

  lemma FivePools()
    ensures |StackPool(FiveQuestions(), 1)| == 2 && |StackPool(FiveQuestions(), 2)| == 3
  {
    var qs := FiveQuestions();
    var bs := qs[2..];
    assert bs == [Q(3, 2), Q(4, 2), Q(5, 2)];
    StackPoolEmpty(bs, 1);
    assert qs[1..][1..] == bs;
    assert StackPool(bs[1..][1..], 2) == [Q(5, 2)];
  }

  /** Listing a stack twice gives it two independent draws from the same
      questions, so one question can be attached twice. */
  lemma DuplicateStackRepeatsQuestion()
    ensures DrawsFit(Pools([Q(1, 1)], [1, 1]), 2, [[0], [0]])
    ensures Selected(Pools([Q(1, 1)], [1, 1]), [[0], [0]]) == [Q(1, 1), Q(1, 1)]
  {
    assert StackPool([Q(1, 1)], 1) == [Q(1, 1)];
  }

  /** Ten questions over three stacks are shared 4, 3, 3. */
  lemma TenOverThree()
    ensures Target(10, 3, 0) == 4 && Target(10, 3, 1) == 3 && Target(10, 3, 2) == 3
    ensures TargetSum(10, 3, 3) == 10
  {
  }
}
