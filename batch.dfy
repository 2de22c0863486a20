/** `batch(iterable, size)`: consecutive groups of at most `size` elements.

    The generator takes one iterator over the input and, for every group,
    slices at most `size` elements off it; it stops as soon as a slice yields
    nothing. Here the shared iterator is a cursor into the input sequence, held
    by a `Batcher` object, and each group is taken in full before the next one
    is asked for.
 */
module Batching {
  import opened Dicts

  /** The groups laid end to end. */
  function Concat<T>(groups: seq<seq<T>>): seq<T> {
    if groups == [] then [] else groups[0] + Concat(groups[1..])
  }

  lemma {:induction false} ConcatSnoc<T>(groups: seq<seq<T>>, g: seq<T>)
    ensures Concat(groups + [g]) == Concat(groups) + g
  {
    if groups != [] {
      assert (groups + [g])[1..] == groups[1..] + [g];
      ConcatSnoc(groups[1..], g);
    }
  }

  /** What the groups of `batch(input, size)` are required to be: none when
      `size` is zero; otherwise non-empty groups of at most `size` elements,
      all but the last of exactly `size`, that put together give the input. */
  ghost predicate IsBatching<T>(input: seq<T>, size: nat, groups: seq<seq<T>>) {
    if size == 0 then groups == []
    else
      && Concat(groups) == input
      && (forall i :: 0 <= i < |groups| ==> 0 < |groups[i]| <= size)
      && (forall i :: 0 <= i < |groups| - 1 ==> |groups[i]| == size)
  }

  function Min(a: int, b: int): int {
    if a <= b then a else b
  }

  /** Reference definition: the first `size` elements, then the batches of the rest. */
  function Batches<T>(input: seq<T>, size: nat): seq<seq<T>>
    decreases |input|
  {
    if size == 0 || input == [] then []
    else
      var m := Min(size, |input|);
      [input[..m]] + Batches(input[m..], size)
  }

  /** The reference definition meets the requirements. */
  lemma {:induction false} BatchesIsBatching<T>(input: seq<T>, size: nat)
    ensures IsBatching(input, size, Batches(input, size))
    decreases |input|
  {
    if size != 0 && input != [] {
      var m := Min(size, |input|);
      var rest := Batches(input[m..], size);
      BatchesIsBatching(input[m..], size);
      var groups := Batches(input, size);
      assert groups == [input[..m]] + rest;
      assert groups[1..] == rest;
      assert input == input[..m] + input[m..];
      forall i | 0 <= i < |groups| - 1 ensures |groups[i]| == size {
        if i > 0 {
          assert groups[i] == rest[i - 1];
        } else {
          assert rest != [];
        }
      }
      forall i | 0 < i < |groups| ensures 0 < |groups[i]| <= size {
        assert groups[i] == rest[i - 1];
      }
    }
  }

  /** The requirements leave no choice: there is one batching of an input. */
  lemma {:induction false} BatchingUnique<T>(input: seq<T>, size: nat, g1: seq<seq<T>>, g2: seq<seq<T>>)
    requires IsBatching(input, size, g1) && IsBatching(input, size, g2)
    ensures g1 == g2
    decreases |input|
  {
    if size != 0 {
      BatchingEmpty(input, size, g1);
      BatchingEmpty(input, size, g2);
      if input != [] {
        var m := Min(size, |input|);
        FirstGroup(input, size, g1);
        FirstGroup(input, size, g2);
        assert g1[0] == input[..m] == g2[0];
        BatchingTail(input, size, g1);
        BatchingTail(input, size, g2);
        BatchingUnique(input[m..], size, g1[1..], g2[1..]);
        assert g1 == [g1[0]] + g1[1..] && g2 == [g2[0]] + g2[1..];
      }
    }
  }

  /** A batching with `size >= 1` has no group exactly when the input is empty. */
  lemma BatchingEmpty<T>(input: seq<T>, size: nat, groups: seq<seq<T>>)
    requires size != 0 && IsBatching(input, size, groups)
    ensures groups == [] <==> input == []
  {
    if groups != [] {
      assert |Concat(groups)| >= |groups[0]| > 0;
    }
  }

  /** The first group of a batching is the first `size` elements, or all of them. */
  lemma FirstGroup<T>(input: seq<T>, size: nat, groups: seq<seq<T>>)
    requires size != 0 && groups != [] && IsBatching(input, size, groups)
    ensures groups[0] == input[..Min(size, |input|)]
  {
    assert input == groups[0] + Concat(groups[1..]);
    if |groups| > 1 {
      assert |groups[1]| > 0 && groups[1..][0] == groups[1];
    } else {
      assert Concat(groups[1..]) == [];
    }
  }

  /** What follows the first group is a batching of the rest of the input. */
  lemma BatchingTail<T>(input: seq<T>, size: nat, groups: seq<seq<T>>)
    requires size != 0 && groups != [] && IsBatching(input, size, groups)
    requires groups[0] == input[..Min(size, |input|)]
    ensures IsBatching(input[Min(size, |input|)..], size, groups[1..])
  {
    var m := Min(size, |input|);
    assert input == groups[0] + Concat(groups[1..]);
    assert input[m..] == Concat(groups[1..]);
    forall i | 0 <= i < |groups[1..]| ensures 0 < |groups[1..][i]| <= size {
      assert groups[1..][i] == groups[i + 1];
    }
    forall i | 0 <= i < |groups[1..]| - 1 ensures |groups[1..][i]| == size {
      assert groups[1..][i] == groups[i + 1];
    }
  }

  /** With `size >= 1`, there are `ceil(|input| / size)` groups: enough to
      hold the input, and one fewer would not be. */
  lemma {:induction false} BatchesCount<T>(input: seq<T>, size: nat)
    requires size > 0
    ensures |input| <= |Batches(input, size)| * size
    ensures input != [] ==> (|Batches(input, size)| - 1) * size < |input|
    decreases |input|
  {
    if input != [] {
      var m := Min(size, |input|);
      var n := |Batches(input[m..], size)|;
      BatchesCount(input[m..], size);
      assert |Batches(input, size)| == n + 1;
      assert (n + 1) * size == n * size + size;
      if |input| <= size {
        assert input[m..] == [];
        assert n == 0;
      } else {
        assert (n - 1) * size == n * size - size;
      }
    }
  }

  /** The groups of `[1, 2, 3, 4, 5]` in twos. */
  lemma BatchesExample(a: int, b: int, c: int, d: int, e: int)
    ensures Batches([a, b, c, d, e], 2) == [[a, b], [c, d], [e]]
  {
    var s, t, u := [a, b, c, d, e], [c, d, e], [e];
    assert s[..2] == [a, b] && s[2..] == t;
    assert t[..2] == [c, d] && t[2..] == u;
    assert u[..1] == u && u[1..] == [];
    assert Batches(u, 2) == [u];
    assert Batches(t, 2) == [[c, d]] + Batches(u, 2);
    assert Batches(s, 2) == [[a, b]] + Batches(t, 2);
  }

  /** The generator's state: the input, the slice length and the shared cursor. */
  class Batcher<T> {
    const input: seq<T>
    const size: nat
    var cursor: nat
    /** The groups handed out so far. */
    ghost var emitted: seq<seq<T>>

    /** The groups handed out so far are the start of a batching of the input
        and cover exactly what the cursor has passed. */
    ghost predicate Valid()
      reads this
    {
      && cursor <= |input|
      && Concat(emitted) == input[..cursor]
      && (size == 0 ==> emitted == [])
      && (forall i :: 0 <= i < |emitted| ==> 0 < |emitted[i]| <= size)
      && (forall i :: 0 <= i < |emitted| - 1 ==> |emitted[i]| == size)
      && (emitted != [] && |emitted[|emitted| - 1]| < size ==> cursor == |input|)
    }

    constructor(input: seq<T>, size: nat)
      ensures Valid()
      ensures this.input == input && this.size == size
      ensures cursor == 0 && emitted == []
    {
      this.input := input;
      this.size := size;
      cursor := 0;
      emitted := [];
    }

    /** The next group, or `None` once a slice of the input yields nothing. */
    method Next() returns (g: Option<seq<T>>)
      requires Valid()
      modifies this
      ensures Valid()
      ensures g.None? <==> size == 0 || old(cursor) == |input|
      ensures g.None? ==> cursor == old(cursor) && emitted == old(emitted)
      ensures g.Some? ==> cursor == Min(old(cursor) + size, |input|)
      ensures g.Some? ==> g.value == input[old(cursor)..cursor] && emitted == old(emitted) + [g.value]
    {
      if size == 0 || cursor == |input| {
        return None;
      }
      ghost var before := emitted;
      var start := cursor;
      var group := [input[cursor]];
      cursor := cursor + 1;
      while |group| < size && cursor < |input|
        invariant start < cursor <= |input| && cursor <= start + size
        invariant group == input[start..cursor]
        invariant emitted == before
      {
        group := group + [input[cursor]];
        cursor := cursor + 1;
      }
      ConcatSnoc(before, group);
      assert input[..cursor] == input[..start] + group;
      ghost var after := before + [group];
      forall i | 0 <= i < |after| ensures 0 < |after[i]| <= size {
        if i < |before| {
          assert after[i] == before[i];
        }
      }
      forall i | 0 <= i < |after| - 1 ensures |after[i]| == size {
        assert after[i] == before[i];
        if i == |before| - 1 {
          assert !(|before[|before| - 1]| < size);
        }
      }
      emitted := after;
      g := Some(group);
    }
  }

  /** All groups of `batch(input, size)`, each consumed in full. */
  method AllBatches<T>(input: seq<T>, size: nat) returns (groups: seq<seq<T>>)
    ensures IsBatching(input, size, groups)
    ensures groups == Batches(input, size)
  {
    var b := new Batcher(input, size);
    groups := [];
    var g := b.Next();
    while g.Some?
      invariant b.Valid() && b.input == input && b.size == size
      invariant g.None? ==> groups == b.emitted && (size == 0 || b.cursor == |input|)
      invariant g.Some? ==> groups + [g.value] == b.emitted
      decreases |input| - b.cursor + (if g.Some? then 1 else 0)
    {
      groups := groups + [g.value];
      g := b.Next();
    }
    BatchesIsBatching(input, size);
    BatchingUnique(input, size, groups, Batches(input, size));
  }
}
