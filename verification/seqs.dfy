/** Generic sequence helpers. */
module Seqs {

  /** Concatenation of a sequence of sequences, first to last
      (Python's `itertools.chain(*ss)` and `"".join(ss)`). */
  function Flatten<T>(ss: seq<seq<T>>): seq<T>
    decreases |ss|
  {
    if |ss| == 0 then [] else ss[0] + Flatten(ss[1..])
  }

  lemma AppendAssoc<T>(a: seq<T>, b: seq<T>, c: seq<T>)
    ensures a + (b + c) == (a + b) + c
  {
  }

  /** Where two elements put between a prefix and a tail end up. */
  lemma PairAfter<T>(prefix: seq<T>, x: T, y: T, tail: seq<T>)
    ensures var s := prefix + ([x, y] + tail);
      |prefix| + 1 < |s| && s[..|prefix|] == prefix && s[|prefix|] == x && s[|prefix| + 1] == y
  {
  }

  lemma {:induction false} FlattenAppend<T>(a: seq<seq<T>>, b: seq<seq<T>>)
    ensures Flatten(a + b) == Flatten(a) + Flatten(b)
    decreases |a|
  {
    if |a| == 0 {
      assert a + b == b;
    } else {
      assert (a + b)[1..] == a[1..] + b;
      FlattenAppend(a[1..], b);
    }
  }

  /** Flattening visits the sequences in order: everything before the i-th,
      then the i-th unchanged, then everything after it. */
  lemma {:induction false} FlattenOrder<T>(ss: seq<seq<T>>, i: int)
    requires 0 <= i < |ss|
    ensures Flatten(ss) == Flatten(ss[..i]) + ss[i] + Flatten(ss[i + 1..])
  {
    var rest := ss[i..];
    assert ss == ss[..i] + rest;
    FlattenAppend(ss[..i], rest);
    assert rest[1..] == ss[i + 1..];
    assert Flatten(rest) == ss[i] + Flatten(ss[i + 1..]);
  }
}
