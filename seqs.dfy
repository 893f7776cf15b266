/** Sequence helpers shared by the modules: concatenating a sequence of
    sequences, as the Python code does when it extends one list per item. */
module Seqs {

  /** The concatenation of all the inner sequences, in order. */
  function Flatten<T>(xss: seq<seq<T>>): (r: seq<T>)
  {
    if xss == [] then [] else xss[0] + Flatten(xss[1..])
  }

  lemma {:induction false} FlattenAppend<T>(a: seq<seq<T>>, b: seq<seq<T>>)
    ensures Flatten(a + b) == Flatten(a) + Flatten(b)
  {
    if a == [] {
      assert a + b == b;
    } else {
      assert (a + b)[1..] == a[1..] + b;
      FlattenAppend(a[1..], b);
    }
  }

  /** Appending one inner sequence at the end extends the flattening by it. */
  lemma FlattenCons<T>(x: seq<T>, xss: seq<seq<T>>)
    ensures Flatten([x] + xss) == x + Flatten(xss)
  {
    assert ([x] + xss)[1..] == xss;
  }

  lemma FlattenSnoc<T>(a: seq<seq<T>>, x: seq<T>)
    ensures Flatten(a + [x]) == Flatten(a) + x
  {
    FlattenAppend(a, [x]);
    assert Flatten([x]) == x + Flatten([x][1..]);
  }

  /** Total length of the inner sequences before position `k`. */
  function Offset<T>(xss: seq<seq<T>>, k: nat): nat
    requires k <= |xss|
  {
    |Flatten(xss[..k])|
  }

  /** Element `j` of inner sequence `k` sits at `Offset(xss, k) + j` in the flattening. */
  lemma {:induction false} FlattenIndex<T>(xss: seq<seq<T>>, k: nat, j: nat)
    requires k < |xss| && j < |xss[k]|
    ensures Offset(xss, k) + j < |Flatten(xss)|
    ensures Flatten(xss)[Offset(xss, k) + j] == xss[k][j]
  {
    assert xss == xss[..k] + [xss[k]] + xss[k + 1..];
    FlattenAppend(xss[..k] + [xss[k]], xss[k + 1..]);
    FlattenSnoc(xss[..k], xss[k]);
  }

  /** Putting one more inner sequence in front shifts every offset by its length. */
  lemma OffsetCons<T>(x: seq<T>, xss: seq<seq<T>>, k: nat)
    requires k <= |xss|
    ensures Offset([x] + xss, k + 1) == |x| + Offset(xss, k)
  {
    assert ([x] + xss)[..k + 1] == [x] + xss[..k];
    assert ([x] + xss[..k])[1..] == xss[..k];
  }

  /** Taking the element at `j` off the front of `xs[j..] + ys`. */
  lemma DropCons<T>(xs: seq<T>, j: nat, ys: seq<T>)
    requires j < |xs|
    ensures xs[j..] + ys == [xs[j]] + (xs[j + 1..] + ys)
  {
    assert xs[j..] == [xs[j]] + xs[j + 1..];
  }
}
