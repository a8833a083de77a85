// The pieces a byte stream is cut into: piece n (numbered from 1) is the n-th run of
// `size` bytes, and only the last one may be shorter.
module Pieces {
  import opened Buffers
  import opened PartPlan

  /** Where the n-th piece ends when the data reaches that far. */
  function Offset(size: nat, n: nat): nat {
    n * size
  }

  lemma NextOffset(size: nat, n: nat)
    ensures Offset(size, n + 1) == Offset(size, n) + size
    ensures Offset(size, 0) == 0
  {
  }

  /** Where the n-th piece ends. */
  function Cut(length: nat, size: nat, n: nat): nat {
    Min(Offset(size, n), length)
  }

  function Piece(data: Bytes, size: nat, n: nat): Bytes
    requires n >= 1
  {
    PieceBounds(|data|, size, n);
    data[Cut(|data|, size, n - 1)..Cut(|data|, size, n)]
  }

  lemma PieceBounds(length: nat, size: nat, n: nat)
    requires n >= 1
    ensures Cut(length, size, n - 1) <= Cut(length, size, n) <= length
  {
    MulMonotone(n - 1, n, size);
  }

  /** How many pieces there are; an empty stream still makes one empty piece. */
  function PieceCount(length: nat, size: nat): nat
    requires length > 0 ==> size > 0
  {
    if length == 0 then 1 else CeilDiv(length, size)
  }

  /** A piece that ends inside the data is full. */
  lemma FullPiece(data: Bytes, size: nat, n: nat)
    requires n >= 1 && Offset(size, n) <= |data| && (|data| > 0 ==> size > 0)
    ensures Offset(size, n) == Offset(size, n - 1) + size
    ensures Piece(data, size, n) == data[Offset(size, n - 1)..Offset(size, n)]
    ensures |data| > 0 ==> n <= PieceCount(|data|, size)
  {
    NextOffset(size, n - 1);
    if |data| > 0 {
      CeilDivCovers(|data|, size);
      if n > PieceCount(|data|, size) {
        MulMonotone(PieceCount(|data|, size), n - 1, size);
      }
    }
  }

  /** The piece that reaches the end is the rest, and its number is the count. */
  lemma LastPiece(data: Bytes, size: nat, n: nat)
    requires n >= 1 && (|data| > 0 ==> size > 0)
    requires Offset(size, n - 1) <= |data| <= Offset(size, n - 1) + size
    requires |data| > 0 ==> Offset(size, n - 1) < |data|
    requires |data| == 0 ==> n == 1
    ensures Piece(data, size, n) == data[Offset(size, n - 1)..]
    ensures n == PieceCount(|data|, size)
  {
    NextOffset(size, n - 1);
    if |data| > 0 {
      CeilDivUnique(|data|, size, n);
    }
  }

  /** The first n pieces, joined. */
  function Joined(data: Bytes, size: nat, n: nat): Bytes {
    if n == 0 then [] else Joined(data, size, n - 1) + Piece(data, size, n)
  }

  lemma {:induction false} JoinedIsPrefix(data: Bytes, size: nat, n: nat)
    ensures Joined(data, size, n) == data[..Cut(|data|, size, n)]
  {
    if n > 0 {
      JoinedIsPrefix(data, size, n - 1);
      PieceBounds(|data|, size, n);
    }
  }

  /** Cutting loses and repeats nothing; every piece but the last is full, and none is empty unless all is. */
  lemma PiecesTile(data: Bytes, size: nat)
    requires |data| > 0 ==> size > 0
    ensures var c := PieceCount(|data|, size);
      && c >= 1
      && Joined(data, size, c) == data
      && (forall n :: 1 <= n < c ==> |Piece(data, size, n)| == size)
      && (|data| > 0 ==> 0 < |Piece(data, size, c)| <= size)
  {
    var c := PieceCount(|data|, size);
    if |data| == 0 {
      assert Cut(0, size, 1) == 0;
    } else {
      CeilDivCovers(|data|, size);
      LastPiece(data, size, c);
      forall n | 1 <= n < c ensures |Piece(data, size, n)| == size {
        MulMonotone(n, c - 1, size);
        NextOffset(size, n - 1);
        FullPiece(data, size, n);
      }
      NextOffset(size, c - 1);
    }
    JoinedIsPrefix(data, size, c);
  }
}
