/**
 * The merge the loader uses everywhere: PHP's `$items += $more`, which adds
 * the entries of `$more` whose id is not yet present and never overwrites.
 * MergeAll folds that merge over a sequence of producers (annotations,
 * extensions, reflection points, aspects), stopping at the first one that
 * fails, as an exception thrown inside a PHP `foreach` does.
 */
module Merging {
  import opened Aop

  type ItemMap = map<string, Item>

  /** `acc += next`: the union of both, where an id already in `acc` keeps
      its entry. */
  function FirstWins(acc: ItemMap, next: ItemMap): (r: ItemMap)
    ensures r.Keys == acc.Keys + next.Keys
    ensures forall id :: id in acc ==> r[id] == acc[id]
    ensures forall id :: id in next && id !in acc ==> r[id] == next[id]
  {
    next + acc
  }

  /** Every entry of `small` is in `big`, unchanged. */
  ghost predicate Extends(small: ItemMap, big: ItemMap)
  {
    forall id :: id in small ==> id in big && big[id] == small[id]
  }

  /** `produce` succeeded on `x` and yielded an entry under `id`. */
  ghost predicate Yields<T>(produce: T -> Result<ItemMap>, x: T, id: string)
  {
    produce(x).Ok? && id in produce(x).value
  }

  /** Starting from `acc`, merge first-wins what `produce` yields for each of
      `xs` in order; the first failure aborts the whole fold. */
  function MergeAll<T>(xs: seq<T>, produce: T -> Result<ItemMap>, acc: ItemMap): Result<ItemMap>
    decreases |xs|
  {
    if |xs| == 0 then Ok(acc)
    else match produce(xs[0])
      case Err(e) => Err(e)
      case Ok(m) => MergeAll(xs[1..], produce, FirstWins(acc, m))
  }

  /** Merging into the accumulator piece by piece is merging the pieces first. */
  lemma FirstWinsAssociative(a: ItemMap, b: ItemMap, c: ItemMap)
    ensures FirstWins(FirstWins(a, b), c) == FirstWins(a, FirstWins(b, c))
  {
    var left, right := FirstWins(FirstWins(a, b), c), FirstWins(a, FirstWins(b, c));
    assert left.Keys == right.Keys;
    forall id | id in left ensures left[id] == right[id] {
    }
  }

  /** Nothing already accumulated is ever overwritten by a later producer. */
  lemma {:induction false} MergeAllExtends<T>(xs: seq<T>, produce: T -> Result<ItemMap>, acc: ItemMap)
    requires MergeAll(xs, produce, acc).Ok?
    ensures Extends(acc, MergeAll(xs, produce, acc).value)
    decreases |xs|
  {
    if |xs| > 0 {
      var m := produce(xs[0]).value;
      MergeAllExtends(xs[1..], produce, FirstWins(acc, m));
    }
  }

  /** Folding over `xs` is folding over a prefix, then over the rest. */
  lemma {:induction false} MergeAllSplit<T>(xs: seq<T>, k: nat, produce: T -> Result<ItemMap>, acc: ItemMap)
    requires k <= |xs|
    ensures MergeAll(xs, produce, acc) ==
      match MergeAll(xs[..k], produce, acc)
      case Err(e) => Err(e)
      case Ok(m) => MergeAll(xs[k..], produce, m)
    decreases k
  {
    if k == 0 {
      assert xs[k..] == xs;
    } else {
      assert xs[..k][0] == xs[0] && xs[..k][1..] == xs[1..][..k - 1];
      assert xs[k..] == xs[1..][k - 1..];
      match produce(xs[0])
      case Err(e) =>
      case Ok(m) => MergeAllSplit(xs[1..], k - 1, produce, FirstWins(acc, m));
    }
  }

  /** First wins across producers: whatever the first `k` producers merged
      survives, entry for entry, in the final result. */
  lemma MergeAllPrefixWins<T>(xs: seq<T>, k: nat, produce: T -> Result<ItemMap>, acc: ItemMap)
    requires k <= |xs|
    requires MergeAll(xs, produce, acc).Ok?
    ensures MergeAll(xs[..k], produce, acc).Ok?
    ensures Extends(MergeAll(xs[..k], produce, acc).value, MergeAll(xs, produce, acc).value)
  {
    MergeAllSplit(xs, k, produce, acc);
    MergeAllExtends(xs[k..], produce, MergeAll(xs[..k], produce, acc).value);
  }

  /** The fold succeeds exactly when every producer succeeds. */
  lemma {:induction false} MergeAllOkIff<T>(xs: seq<T>, produce: T -> Result<ItemMap>, acc: ItemMap)
    ensures MergeAll(xs, produce, acc).Ok? <==> forall i :: 0 <= i < |xs| ==> produce(xs[i]).Ok?
    decreases |xs|
  {
    if |xs| > 0 {
      match produce(xs[0])
      case Err(e) =>
      case Ok(m) =>
        MergeAllOkIff(xs[1..], produce, FirstWins(acc, m));
        assert forall i :: 1 <= i < |xs| ==> xs[i] == xs[1..][i - 1];
    }
  }

  /** A failed fold reports the error of the first producer that failed. */
  lemma {:induction false} MergeAllFirstError<T>(xs: seq<T>, produce: T -> Result<ItemMap>, acc: ItemMap, e: Error)
    ensures MergeAll(xs, produce, acc) == Err(e) <==>
      exists i :: 0 <= i < |xs| && produce(xs[i]) == Err(e) &&
        (forall j :: 0 <= j < i ==> produce(xs[j]).Ok?)
    decreases |xs|
  {
    if |xs| > 0 {
      match produce(xs[0])
      case Err(e0) =>
        if e0 == e {
          assert produce(xs[0]) == Err(e);
        }
      case Ok(m) =>
        MergeAllFirstError(xs[1..], produce, FirstWins(acc, m), e);
        if MergeAll(xs, produce, acc) == Err(e) {
          var i :| 0 <= i < |xs[1..]| && produce(xs[1..][i]) == Err(e) &&
            forall j :: 0 <= j < i ==> produce(xs[1..][j]).Ok?;
          assert forall j :: 0 <= j < i + 1 ==> produce(xs[j]).Ok? by {
            forall j | 0 < j < i + 1 ensures produce(xs[j]).Ok? {
              assert xs[j] == xs[1..][j - 1];
            }
          }
          assert produce(xs[i + 1]) == Err(e);
        } else {
          forall i | 0 <= i < |xs| && produce(xs[i]) == Err(e)
            ensures exists j :: 0 <= j < i && produce(xs[j]).Err?
          {
            assert i > 0 && xs[i] == xs[1..][i - 1];
            var j :| 0 <= j < i - 1 && produce(xs[1..][j]).Err?;
            assert xs[1..][j] == xs[j + 1];
          }
        }
    }
  }

  /** Everything a producer yields ends up in a successful result. */
  lemma {:induction false} MergeAllCollects<T>(xs: seq<T>, produce: T -> Result<ItemMap>, acc: ItemMap, i: nat, id: string)
    requires i < |xs|
    requires MergeAll(xs, produce, acc).Ok?
    requires Yields(produce, xs[i], id)
    ensures id in MergeAll(xs, produce, acc).value
    decreases |xs|
  {
    var m := produce(xs[0]).value;
    if i == 0 {
      MergeAllExtends(xs[1..], produce, FirstWins(acc, m));
    } else {
      assert xs[i] == xs[1..][i - 1];
      MergeAllCollects(xs[1..], produce, FirstWins(acc, m), i - 1, id);
    }
  }

  /** First wins, characterised: an id of the result that was not already
      accumulated carries the entry of the FIRST producer that yielded it. */
  lemma {:induction false} MergeAllOrigin<T>(xs: seq<T>, produce: T -> Result<ItemMap>, acc: ItemMap, id: string)
    requires MergeAll(xs, produce, acc).Ok?
    requires id in MergeAll(xs, produce, acc).value
    requires id !in acc
    ensures
      exists i :: 0 <= i < |xs| && Yields(produce, xs[i], id) &&
        MergeAll(xs, produce, acc).value[id] == produce(xs[i]).value[id] &&
        (forall j :: 0 <= j < i ==> !Yields(produce, xs[j], id))
    decreases |xs|
  {
    var r := MergeAll(xs, produce, acc).value;
    var m := produce(xs[0]).value;
    if id in m {
      MergeAllExtends(xs[1..], produce, FirstWins(acc, m));
      assert Yields(produce, xs[0], id) && r[id] == m[id];
    } else {
      MergeAllOrigin(xs[1..], produce, FirstWins(acc, m), id);
      var i :| 0 <= i < |xs[1..]| && Yields(produce, xs[1..][i], id) &&
        r[id] == produce(xs[1..][i]).value[id] &&
        forall j :: 0 <= j < i ==> !Yields(produce, xs[1..][j], id);
      assert xs[1..][i] == xs[i + 1];
      forall j | 0 < j < i + 1 ensures !Yields(produce, xs[j], id) {
        assert xs[j] == xs[1..][j - 1];
      }
    }
  }

  /** Producers that all yield nothing leave the accumulator as it is. */
  lemma {:induction false} MergeAllNothing<T>(xs: seq<T>, produce: T -> Result<ItemMap>, acc: ItemMap)
    requires forall i :: 0 <= i < |xs| ==> produce(xs[i]) == Ok(map[])
    ensures MergeAll(xs, produce, acc) == Ok(acc)
    decreases |xs|
  {
    if |xs| > 0 {
      assert produce(xs[0]) == Ok(map[]);
      assert FirstWins(acc, map[]) == acc;
      assert forall i :: 0 <= i < |xs[1..]| ==> xs[1..][i] == xs[i + 1];
      MergeAllNothing(xs[1..], produce, acc);
    }
  }
}
