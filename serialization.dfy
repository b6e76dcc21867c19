/** Turning matrices into the lines of a test-vector file: each row becomes the
    concatenation, with no separator, of its entries' fixed-width two's-complement
    encodings; a column vector is written one entry per line. */
module Serialization {
  import opened SignedBinary
  import opened Matrices

  /** `''.join([to_signed_binary(val, bits) for val in row])`. */
  function SerializeRow(row: seq<int>, bits: nat): (line: string)
    requires bits >= 1
    ensures |line| == bits * |row| && IsBinary(line)
  {
    if row == [] then [] else ToSignedBinary(row[0], bits) + SerializeRow(row[1..], bits)
  }

  /** The reader of such a line: cut it into `bits`-wide fields and decode each one as a
      two's-complement integer (a trailing partial field is ignored). */
  function ParseRow(line: string, bits: nat): (row: seq<int>)
    requires bits >= 1
    decreases |line|
  {
    if |line| < bits then [] else [Signed(line[..bits])] + ParseRow(line[bits..], bits)
  }

  /** The row with each entry saturated into `bits`-bit range. */
  function SaturateAll(row: seq<int>, bits: nat): (s: seq<int>)
    requires bits >= 1
  {
    seq(|row|, k requires 0 <= k < |row| => Saturate(row[k], bits))
  }

  /** Reading a serialized row gives back its entries, each saturated. */
  lemma {:induction false} ParseSerializeRow(row: seq<int>, bits: nat)
    requires bits >= 1
    ensures ParseRow(SerializeRow(row, bits), bits) == SaturateAll(row, bits)
  {
    if row != [] {
      var line := SerializeRow(row, bits);
      var head := ToSignedBinary(row[0], bits);
      assert line[..bits] == head;
      assert line[bits..] == SerializeRow(row[1..], bits);
      EncodeDecode(row[0], bits);
      ParseSerializeRow(row[1..], bits);
      assert SaturateAll(row, bits) == [Saturate(row[0], bits)] + SaturateAll(row[1..], bits);
    }
  }

  /** A row whose entries fit in `bits` bits is read back exactly. */
  lemma RowRoundTrip(row: seq<int>, bits: nat)
    requires bits >= 1
    requires forall k :: 0 <= k < |row| ==> MinSigned(bits) <= row[k] <= MaxSigned(bits)
    ensures ParseRow(SerializeRow(row, bits), bits) == row
  {
    ParseSerializeRow(row, bits);
  }

  /** A one-entry row is written exactly as its single entry's encoding, so the per-entry
      lines of the column writers agree with the row format. */
  lemma SingleEntryRow(x: int, bits: nat)
    requires bits >= 1
    ensures SerializeRow([x], bits) == ToSignedBinary(x, bits)
  {
    assert [x][1..] == [];
  }

  /** The lines of a file written from m: one line per row. */
  function SerializeMatrix(m: Matrix, bits: nat): (lines: seq<string>)
    requires bits >= 1
  {
    seq(|m|, i requires 0 <= i < |m| => SerializeRow(m[i], bits))
  }

  /** The loop `for row in m: f.write(''.join(...) + '\n')`, collecting the lines. */
  method WriteRows(m: Matrix, bits: nat) returns (lines: seq<string>)
    requires bits >= 1
    ensures lines == SerializeMatrix(m, bits)
  {
    lines := [];
    var i := 0;
    while i < |m|
      invariant 0 <= i <= |m|
      invariant lines == SerializeMatrix(m[..i], bits)
    {
      lines := lines + [SerializeRow(m[i], bits)];
      i := i + 1;
    }
    assert m[..i] == m;
  }

  /** The loop `for val_array in m: f.write(to_signed_binary(val_array[0], bits) + '\n')`
      over a column vector; it writes the same lines as WriteRows would. */
  method WriteColumn(m: Matrix, bits: nat) returns (lines: seq<string>)
    requires bits >= 1 && IsShape(m, |m|, 1)
    ensures lines == SerializeMatrix(m, bits)
  {
    lines := [];
    var i := 0;
    while i < |m|
      invariant 0 <= i <= |m|
      invariant lines == SerializeMatrix(m[..i], bits)
    {
      SingleEntryRow(m[i][0], bits);
      assert m[i] == [m[i][0]];
      lines := lines + [ToSignedBinary(m[i][0], bits)];
      i := i + 1;
    }
    assert m[..i] == m;
  }
}
