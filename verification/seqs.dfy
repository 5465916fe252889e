/** Concatenating a sequence of sequences, the shape of a loop that pushes a few items per element. */
module Seqs {

  function Flatten<T>(xss: seq<seq<T>>): seq<T>
    decreases |xss|
  {
    if |xss| == 0 then [] else Flatten(xss[..|xss| - 1]) + xss[|xss| - 1]
  }

  lemma FlattenLast<T>(xss: seq<seq<T>>, xs: seq<T>)
    ensures Flatten(xss + [xs]) == Flatten(xss) + xs
  {
    assert (xss + [xs])[..|xss|] == xss;
  }

  /** Flattening a one-longer prefix adds that element's items at the end. */
  lemma FlattenPrefix<T>(xss: seq<seq<T>>, i: nat)
    requires i < |xss|
    ensures Flatten(xss[..i + 1]) == Flatten(xss[..i]) + xss[i]
  {
    assert xss[..i + 1] == xss[..i] + [xss[i]];
    FlattenLast(xss[..i], xss[i]);
  }

  lemma {:induction false} FlattenAppend<T>(a: seq<seq<T>>, b: seq<seq<T>>)
    ensures Flatten(a + b) == Flatten(a) + Flatten(b)
    decreases |b|
  {
    if |b| == 0 {
      assert a + b == a;
    } else {
      var b', x := b[..|b| - 1], b[|b| - 1];
      assert b == b' + [x];
      assert a + b == (a + b') + [x];
      FlattenAppend(a, b');
      FlattenLast(a + b', x);
      FlattenLast(b', x);
    }
  }

  /** Every item of the flattening is an item of some element. */
  lemma {:induction false} FlattenSound<T>(xss: seq<seq<T>>, k: nat)
    requires k < |Flatten(xss)|
    ensures exists j :: 0 <= j < |xss| && Flatten(xss)[k] in xss[j]
    decreases |xss|
  {
    var init := xss[..|xss| - 1];
    var last := xss[|xss| - 1];
    FlattenLast(init, last);
    assert xss == init + [last];
    if k < |Flatten(init)| {
      FlattenSound(init, k);
      var j :| 0 <= j < |init| && Flatten(init)[k] in init[j];
      assert xss[j] == init[j];
    } else {
      assert Flatten(xss)[k] == last[k - |Flatten(init)|];
    }
  }

  /** Every item of every element is an item of the flattening. */
  lemma {:induction false} FlattenComplete<T>(xss: seq<seq<T>>, j: nat)
    requires j < |xss|
    ensures forall x :: x in xss[j] ==> x in Flatten(xss)
    decreases |xss|
  {
    var init := xss[..|xss| - 1];
    var last := xss[|xss| - 1];
    FlattenLast(init, last);
    assert xss == init + [last];
    if j < |init| {
      FlattenComplete(init, j);
      assert xss[j] == init[j];
    }
  }
}
