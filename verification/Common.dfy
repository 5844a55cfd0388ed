/** Small datatypes and collection facts shared by the dispatcher models. */
module Common {

  datatype Option<+T> = None | Some(value: T)

  datatype Result<+T, +R> = Ok(value: T) | Err(refusal: R)

  newtype byte = b: int | 0 <= b < 256

  type Bytes = seq<byte>

  /** A content hash. `Hash::of` is taken to be injective, so the hash of some
      bytes is modelled by the bytes themselves under a constructor. */
  datatype Digest = HashOf(content: Bytes)

  function Min(a: nat, b: nat): nat {
    if a <= b then a else b
  }

  /** What `saturating_sub` leaves. */
  function Monus(a: nat, b: nat): nat {
    if b <= a then a - b else 0
  }

  predicate Distinct(xs: seq<string>) {
    forall i, j :: 0 <= i < j < |xs| ==> xs[i] != xs[j]
  }

  /** A loop that ends at its first error: the error of a prefix is that of the whole. */
  lemma {:induction false} FirstErrorStays<E, T, R>(f: seq<E> -> Result<T, R>, items: seq<E>, i: nat)
    requires i <= |items| && f(items[..i]).Err?
    requires forall s: seq<E> :: s != [] && f(s[..|s| - 1]).Err? ==> f(s) == f(s[..|s| - 1])
    ensures f(items) == f(items[..i])
    decreases |items|
  {
    if i < |items| {
      assert items[..|items| - 1][..i] == items[..i];
      FirstErrorStays(f, items[..|items| - 1], i);
    } else {
      assert items[..i] == items;
    }
  }
}
