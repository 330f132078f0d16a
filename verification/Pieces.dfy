/** A text made of consecutive pieces: the offsets of the pieces, and edits of one piece in place. */
module Pieces {
  import opened CppString

  /** The text before piece `k`. */
  function Before(ps: seq<string>, k: nat): string
    requires k <= |ps|
  {
    if k == 0 then "" else Before(ps, k - 1) + ps[k - 1]
  }

  /** The text of the pieces from `j` up to `k`. */
  function Between(ps: seq<string>, j: nat, k: nat): string
    requires j <= k <= |ps|
    decreases k - j
  {
    if j == k then "" else ps[j] + Between(ps, j + 1, k)
  }

  function Concat(ps: seq<string>): string {
    Before(ps, |ps|)
  }

  /** Where piece `k` starts. */
  function Offset(ps: seq<string>, k: nat): nat
    requires k <= |ps|
  {
    |Before(ps, k)|
  }

  lemma {:induction false} OffsetGrows(ps: seq<string>, j: nat, k: nat)
    requires j <= k <= |ps|
    ensures Offset(ps, j) <= Offset(ps, k)
    decreases k - j
  {
    if j < k {
      OffsetGrows(ps, j, k - 1);
    }
  }

  lemma OffsetsInText(ps: seq<string>)
    ensures forall k | 0 <= k <= |ps| :: Offset(ps, k) <= |Concat(ps)|
  {
    forall k | 0 <= k <= |ps| ensures Offset(ps, k) <= |Concat(ps)| {
      OffsetGrows(ps, k, |ps|);
    }
  }

  lemma {:induction false} CutBefore(ps: seq<string>, j: nat, k: nat)
    requires j <= k <= |ps|
    ensures Before(ps, k) == Before(ps, j) + Between(ps, j, k)
    decreases k - j
  {
    if j < k {
      CutBefore(ps, j + 1, k);
    }
  }

  /** The text is what lies before, inside and after the pieces from `j` up to `k`. */
  lemma Cut(ps: seq<string>, j: nat, k: nat)
    requires j <= k <= |ps|
    ensures Concat(ps) == Before(ps, j) + Between(ps, j, k) + Between(ps, k, |ps|)
    ensures Offset(ps, k) == Offset(ps, j) + |Between(ps, j, k)|
  {
    CutBefore(ps, j, k);
    CutBefore(ps, k, |ps|);
  }

  lemma {:induction false} SameBefore(ps: seq<string>, qs: seq<string>, k: nat)
    requires k <= |ps| == |qs|
    requires forall i | 0 <= i < k :: ps[i] == qs[i]
    ensures Before(ps, k) == Before(qs, k)
  {
    if k > 0 {
      SameBefore(ps, qs, k - 1);
    }
  }

  lemma {:induction false} SameBetween(ps: seq<string>, qs: seq<string>, j: nat, k: nat)
    requires j <= k <= |ps| == |qs|
    requires forall i | j <= i < k :: ps[i] == qs[i]
    ensures Between(ps, j, k) == Between(qs, j, k)
    decreases k - j
  {
    if j < k {
      SameBetween(ps, qs, j + 1, k);
    }
  }

  /** Behind the one piece that is replaced, every offset moves by the same delta. */
  lemma EditOffset(ps: seq<string>, k: nat, x: string, i: nat)
    requires k < |ps| && i <= |ps|
    ensures Offset(ps[k := x], i) == if i <= k then Offset(ps, i) else Offset(ps, i) + |x| - |ps[k]|
  {
    var qs := ps[k := x];
    if i <= k {
      SameBefore(ps, qs, i);
    } else {
      SameBefore(ps, qs, k);
      CutBefore(ps, k + 1, i);
      CutBefore(qs, k + 1, i);
      SameBetween(ps, qs, k + 1, i);
    }
  }

  lemma OnePiece(ps: seq<string>, k: nat)
    requires k < |ps|
    ensures Between(ps, k, k + 1) == ps[k]
  {
  }

  lemma EditOffsets(ps: seq<string>, k: nat, x: string)
    requires k < |ps|
    ensures forall i | 0 <= i <= |ps| ::
      Offset(ps[k := x], i) == if i <= k then Offset(ps, i) else Offset(ps, i) + |x| - |ps[k]|
  {
    forall i | 0 <= i <= |ps|
      ensures Offset(ps[k := x], i) == if i <= k then Offset(ps, i) else Offset(ps, i) + |x| - |ps[k]|
    {
      EditOffset(ps, k, x, i);
    }
  }

  /** Replacing a piece is one splice of the text. */
  lemma EditText(ps: seq<string>, k: nat, x: string)
    requires k < |ps|
    ensures Offset(ps, k + 1) == Offset(ps, k) + |ps[k]| <= |Concat(ps)|
    ensures Concat(ps[k := x]) == Splice(Concat(ps), Offset(ps, k), Offset(ps, k + 1), x)
  {
    hide Before, Between, Splice;
    var qs := ps[k := x];
    Cut(ps, k, k + 1);
    Cut(qs, k, k + 1);
    SameBefore(ps, qs, k);
    SameBetween(ps, qs, k + 1, |ps|);
    OnePiece(ps, k);
    OnePiece(qs, k);
    SpliceMiddle(Before(ps, k), ps[k], Between(ps, k + 1, |ps|), x);
  }

  /** Piece `k` lies between its offset and the next one. */
  lemma ReadPiece(ps: seq<string>, k: nat)
    requires k < |ps|
    ensures Offset(ps, 0) == 0
    ensures Offset(ps, k + 1) == Offset(ps, k) + |ps[k]| <= |Concat(ps)|
    ensures Concat(ps)[Offset(ps, k)..Offset(ps, k + 1)] == ps[k]
    ensures ps[k] != "" ==> Concat(ps)[Offset(ps, k)] == ps[k][0]
  {
    Cut(ps, k, k + 1);
    OnePiece(ps, k);
  }

  /** What is read at the start of piece `k` is the first byte of the first non-empty piece from `k` on. */
  lemma {:induction false} FirstNonEmpty(ps: seq<string>, k: nat)
    requires k <= |ps|
    ensures Offset(ps, k) <= |Concat(ps)|
    ensures Offset(ps, k) < |Concat(ps)| ==>
      exists i | k <= i < |ps| :: ps[i] != "" && Concat(ps)[Offset(ps, k)] == ps[i][0] && AllEmpty(ps, k, i)
    decreases |ps| - k
  {
    hide Before;
    OffsetsInText(ps);
    if k < |ps| {
      ReadPiece(ps, k);
      if ps[k] == "" {
        FirstNonEmpty(ps, k + 1);
      } else {
        assert AllEmpty(ps, k, k);
      }
    }
  }

  predicate AllEmpty(ps: seq<string>, j: nat, k: nat)
    requires j <= k <= |ps|
  {
    forall i | j <= i < k :: ps[i] == ""
  }
}
