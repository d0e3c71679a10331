/** `fbxAMatrixArrayToArray`: FBX affine matrices written out, sixteen numbers each, for an
    accessor of type MAT4. */
module Matrices {

  /** An FBX matrix as its `Get(row, column)` table. */
  predicate IsMatrix(m: seq<seq<real>>) {
    |m| == 4 && forall r :: 0 <= r < 4 ==> |m[r]| == 4
  }

  predicate AllMatrices(ms: seq<seq<seq<real>>>) {
    forall i :: 0 <= i < |ms| ==> IsMatrix(ms[i])
  }

  /** Matrix i occupies entries 16i .. 16i+15, and `Get(r, c)` is written at 16i + 4r + c:
      each FBX row is written out in turn. */
  method FlattenMatrices(ms: seq<seq<seq<real>>>) returns (out: seq<real>)
    requires AllMatrices(ms)
    ensures |out| == 16 * |ms|
    ensures forall i, r, c :: 0 <= i < |ms| && 0 <= r < 4 && 0 <= c < 4 ==>
      out[16 * i + 4 * r + c] == ms[i][r][c]
  {
    out := [];
    var i := 0;
    while i < |ms|
      invariant 0 <= i <= |ms|
      invariant |out| == 16 * i
      invariant forall i', r, c :: 0 <= i' < i && 0 <= r < 4 && 0 <= c < 4 ==>
        out[16 * i' + 4 * r + c] == ms[i'][r][c]
    {
      var m := ms[i];
      var block := m[0] + m[1] + m[2] + m[3];
      assert forall r, c :: 0 <= r < 4 && 0 <= c < 4 ==> block[4 * r + c] == m[r][c];
      out := out + block;
      i := i + 1;
    }
  }

  /** The matrices back out of their sixteen-number blocks. */
  function Unflatten(data: seq<real>): (ms: seq<seq<seq<real>>>)
    requires |data| % 16 == 0
    ensures |ms| == |data| / 16 && AllMatrices(ms)
  {
    seq(|data| / 16, i requires 0 <= i < |data| / 16 =>
      seq(4, r requires 0 <= r < 4 => seq(4, c requires 0 <= c < 4 => data[16 * i + 4 * r + c])))
  }

  /** Nothing is lost: the written blocks read back as the input matrices. */
  lemma FlattenRoundTrip(ms: seq<seq<seq<real>>>, out: seq<real>)
    requires AllMatrices(ms)
    requires |out| == 16 * |ms|
    requires forall i, r, c :: 0 <= i < |ms| && 0 <= r < 4 && 0 <= c < 4 ==>
      out[16 * i + 4 * r + c] == ms[i][r][c]
    ensures Unflatten(out) == ms
  {
    var back := Unflatten(out);
    forall i | 0 <= i < |ms|
      ensures back[i] == ms[i]
    {
      forall r | 0 <= r < 4
        ensures back[i][r] == ms[i][r]
      {
      }
    }
  }

  /** Entry (row, column) of matrix i as a glTF reader sees the data: column-major. */
  function ColumnMajorEntry(data: seq<real>, i: nat, row: nat, column: nat): real
    requires 16 * i + 16 <= |data| && row < 4 && column < 4
  {
    data[16 * i + 4 * column + row]
  }

  /** A glTF reader, reading column-major, sees each FBX matrix transposed: FBX matrices
      act on row vectors, glTF matrices on column vectors, so the transpose is the same
      transform. */
  lemma ReadBackTransposed(ms: seq<seq<seq<real>>>, out: seq<real>)
    requires AllMatrices(ms)
    requires |out| == 16 * |ms|
    requires forall i, r, c :: 0 <= i < |ms| && 0 <= r < 4 && 0 <= c < 4 ==>
      out[16 * i + 4 * r + c] == ms[i][r][c]
    ensures forall i, row, column :: 0 <= i < |ms| && 0 <= row < 4 && 0 <= column < 4 ==>
      ColumnMajorEntry(out, i, row, column) == ms[i][column][row]
  {
  }
}
