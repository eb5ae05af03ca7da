/** Bytes and the few sequence facts every byte-stream model here needs. */
module Bytes {

  type Byte = b: int | 0 <= b < 256

  /** A UTF-8 continuation byte: the two top bits are `10`. */
  predicate IsContinuation(b: Byte) {
    128 <= b < 192
  }

  /** The concatenation of `parts`, in order. */
  function Flatten<T>(parts: seq<seq<T>>): seq<T> {
    if parts == [] then [] else parts[0] + Flatten(parts[1..])
  }

  lemma {:induction false} FlattenConcat<T>(a: seq<seq<T>>, b: seq<seq<T>>)
    ensures Flatten(a + b) == Flatten(a) + Flatten(b)
  {
    if a == [] {
      assert a + b == b;
    } else {
      assert (a + b)[0] == a[0] && (a + b)[1..] == a[1..] + b;
      FlattenConcat(a[1..], b);
    }
  }

  lemma FlattenSnoc<T>(parts: seq<seq<T>>, last: seq<T>)
    ensures Flatten(parts + [last]) == Flatten(parts) + last
  {
    FlattenConcat(parts, [last]);
    assert Flatten([last]) == last + Flatten<T>([]);
  }
}
