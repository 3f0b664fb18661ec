/**
  Concatenation of a sequence of pieces, in order, and the facts about where
  each piece ends up. Both the stream buffer (chunks of bytes) and the
  notification text (one entry per attachment) are such concatenations.
 */
module Seqs {

  /** The pieces joined end to end, first piece first. */
  function Flatten<T>(parts: seq<seq<T>>): seq<T>
  {
    if |parts| == 0 then []
    else Flatten(parts[..|parts| - 1]) + parts[|parts| - 1]
  }

  /** The number of elements the pieces hold altogether. */
  function TotalLength<T>(parts: seq<seq<T>>): nat
  {
    if |parts| == 0 then 0
    else TotalLength(parts[..|parts| - 1]) + |parts[|parts| - 1]|
  }

  lemma {:induction false} FlattenLength<T>(parts: seq<seq<T>>)
    ensures |Flatten(parts)| == TotalLength(parts)
    decreases |parts|
  {
    if |parts| > 0 {
      FlattenLength(parts[..|parts| - 1]);
    }
  }

  /** Taking one more piece extends the concatenation and the total by it. */
  lemma FlattenStep<T>(parts: seq<seq<T>>, i: nat)
    requires i < |parts|
    ensures Flatten(parts[..i + 1]) == Flatten(parts[..i]) + parts[i]
    ensures TotalLength(parts[..i + 1]) == TotalLength(parts[..i]) + |parts[i]|
  {
    assert parts[..i + 1][..i] == parts[..i];
  }

  /** A longer prefix holds at least as many elements. */
  lemma {:induction false} TotalLengthMonotone<T>(parts: seq<seq<T>>, i: nat, j: nat)
    requires i <= j <= |parts|
    ensures TotalLength(parts[..i]) <= TotalLength(parts[..j])
    decreases j - i
  {
    if i < j {
      TotalLengthMonotone(parts, i, j - 1);
      FlattenStep(parts, j - 1);
    }
  }

  /** A single piece is its own concatenation. */
  lemma FlattenSingle<T>(p: seq<T>)
    ensures Flatten([p]) == p
  {
    assert [p][..0] == [];
    assert Flatten([p]) == Flatten([]) + p;
  }

  /** Two pieces joined. */
  lemma FlattenPair<T>(p: seq<T>, q: seq<T>)
    ensures Flatten([p, q]) == p + q
  {
    assert [p, q][..1] == [p];
    assert [p][..0] == [];
    assert Flatten([p]) == Flatten([]) + p;
    assert Flatten([p, q]) == Flatten([p]) + q;
  }

  /** A slice that lies inside the left operand of `+` is a slice of it. */
  lemma SliceLeft<T>(p: seq<T>, q: seq<T>, i: int, j: int)
    requires 0 <= i <= j <= |p|
    ensures (p + q)[i..j] == p[i..j]
  {
  }

  /** The right operand of `+` is the slice that follows the left one. */
  lemma SliceRight<T>(p: seq<T>, q: seq<T>)
    ensures (p + q)[|p|..|p| + |q|] == q
  {
  }

  /** Piece `i` sits, whole, right after the pieces before it. */
  lemma {:induction false} FlattenPieceAt<T>(parts: seq<seq<T>>, i: nat)
    requires i < |parts|
    ensures |Flatten(parts[..i])| + |parts[i]| <= |Flatten(parts)|
    ensures Flatten(parts)[|Flatten(parts[..i])|..|Flatten(parts[..i])| + |parts[i]|] == parts[i]
    decreases |parts|
  {
    var n := |parts| - 1;
    var front := parts[..n];
    FlattenStep(parts, n);
    assert parts[..n + 1] == parts;
    if i == n {
      SliceRight(Flatten(front), parts[n]);
    } else {
      FlattenPieceAt(front, i);
      assert front[..i] == parts[..i];
      var off := |Flatten(parts[..i])|;
      SliceLeft(Flatten(front), parts[n], off, off + |parts[i]|);
    }
  }
}
