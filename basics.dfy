/** Small facts about sequences and integer products, used as proof steps
    throughout. */
module Basics {

  lemma ConcatAssoc<T>(a: seq<T>, b: seq<T>, c: seq<T>)
    ensures (a + b) + c == a + (b + c)
  {
  }

  /** Equal parts make equal concatenations. */
  lemma ConcatEqual<T>(a: seq<T>, b: seq<T>, c: seq<T>, d: seq<T>)
    requires a == c && b == d
    ensures a + b == c + d
  {
  }

  /** One step of filling a buffer piece by piece: if the filled prefix was
      done + row and the next piece is appended to it, the prefix is now
      done + (row + piece). */
  lemma AppendStep<T>(now: seq<T>, before: seq<T>, done: seq<T>, row: seq<T>, piece: seq<T>, row': seq<T>)
    requires now == before + piece && before == done + row && row' == row + piece
    ensures now == done + row'
  {
    ConcatAssoc(done, row, piece);
  }

  /** Indexing into a concatenation. */
  lemma ConcatAt<T>(a: seq<T>, b: seq<T>, i: nat)
    requires i < |a| + |b|
    ensures (a + b)[i] == if i < |a| then a[i] else b[i - |a|]
  {
  }

  lemma MulLeft(a: int, b: int, c: nat)
    requires a <= b
    ensures a * c <= b * c
  {
  }

  lemma MulSucc(a: int, b: int)
    ensures (a + 1) * b == a * b + b
  {
  }
}
