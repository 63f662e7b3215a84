/** Bytes, machine-integer arithmetic and sequence helpers shared by the other modules. */
module Bytes {

  type Byte = x: nat | x < 256

  datatype Option<+T> = None | Some(value: T)

  const U16: nat := 0x1_0000
  const U32: nat := 0x1_0000_0000
  const U64: nat := 0x1_0000_0000_0000_0000

  function Add32(a: int, b: int): (r: nat) { (a + b) % U32 }

  function Sub32(a: int, b: int): (r: nat) { (a - b) % U32 }

  function Flatten<T>(xs: seq<seq<T>>): seq<T> {
    if xs == [] then [] else Flatten(xs[..|xs| - 1]) + xs[|xs| - 1]
  }

  lemma FlattenSnoc<T>(xs: seq<seq<T>>, x: seq<T>)
    ensures Flatten(xs + [x]) == Flatten(xs) + x
  {
    assert (xs + [x])[..|xs|] == xs;
  }

  lemma {:induction false} FlattenConcat<T>(xs: seq<seq<T>>, ys: seq<seq<T>>)
    ensures Flatten(xs + ys) == Flatten(xs) + Flatten(ys)
    decreases |ys|
  {
    if ys == [] {
      assert xs + ys == xs;
    } else {
      FlattenConcat(xs, ys[..|ys| - 1]);
      assert (xs + ys)[..|xs + ys| - 1] == xs + ys[..|ys| - 1];
    }
  }
}
