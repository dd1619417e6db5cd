/** Small datatypes shared by the models: optional values and Go's "(value, error)" results. */
module Prelude {

  datatype Option<+T> = None | Some(value: T)

  datatype Result<+T, +E> = Ok(value: T) | Err(error: E)

  /** A byte of a stored object. */
  type Byte = bv8

  type Bytes = seq<Byte>

  function Min(a: int, b: int): (m: int)
    ensures m <= a && m <= b && (m == a || m == b)
  {
    if a <= b then a else b
  }

  /** What a reader delivers that seeks to `offset` and, when `length` is positive, stops after
      `length` bytes: the byte range every backend is asked for. */
  function Section(data: Bytes, offset: nat, length: int): (r: Bytes)
    ensures |r| <= |data|
  {
    if offset >= |data| then []
    else data[offset..if length <= 0 then |data| else Min(offset + length, |data|)]
  }

  /** The chunks of a stream, joined. */
  function Concat(chunks: seq<Bytes>): Bytes {
    if chunks == [] then [] else chunks[0] + Concat(chunks[1..])
  }

  lemma {:induction false} ConcatPrefix(chunks: seq<Bytes>, k: nat)
    requires k < |chunks|
    ensures Concat(chunks[..k + 1]) == Concat(chunks[..k]) + chunks[k]
  {
    if k == 0 {
      assert chunks[..1] == [chunks[0]] && chunks[..0] == [];
      assert [chunks[0]][1..] == [] && chunks[0] + [] == chunks[0] && [] + chunks[0] == chunks[0];
    } else {
      ConcatPrefix(chunks[1..], k - 1);
      assert chunks[..k + 1][1..] == chunks[1..][..k] && chunks[..k][1..] == chunks[1..][..k - 1];
      AppendAssoc(chunks[0], Concat(chunks[1..][..k - 1]), chunks[k]);
    }
  }

  lemma AppendAssoc<T>(a: seq<T>, b: seq<T>, c: seq<T>)
    ensures a + (b + c) == (a + b) + c
  {
  }

  lemma HeadIsMember<T>(s: seq<T>)
    ensures s != [] ==> s[0] in s
  {
  }

  /** Taking one occurrence out of two equal multisets. */
  lemma RemoveOne<T>(a: seq<T>, b: seq<T>, k: nat)
    requires a != [] && k < |b| && b[k] == a[|a| - 1] && multiset(a) == multiset(b)
    ensures multiset(a[..|a| - 1]) == multiset(b[..k] + b[k + 1..])
  {
    var n := |a| - 1;
    TakeOut(a, n);
    TakeOut(b, k);
    assert a[..n] + a[n + 1..] == a[..n];
  }

  lemma MultisetOfLast<T>(s: seq<T>)
    requires s != []
    ensures multiset(s) == multiset(s[..|s| - 1]) + multiset{s[|s| - 1]}
  {
    assert s == s[..|s| - 1] + [s[|s| - 1]];
  }

  lemma TakeOut<T>(s: seq<T>, k: nat)
    requires k < |s|
    ensures multiset(s[..k] + s[k + 1..]) == multiset(s) - multiset{s[k]}
  {
    assert s == s[..k] + ([s[k]] + s[k + 1..]);
  }
}
