# Systolic-array test-vector generator, modelled in Dafny

`Pre-Synthesis_Simulation/matrix.py` writes test vectors for an RTL simulation of a systolic
array. It draws random 8-bit matrices A (n x 8) and B (8 x n) and a vector V (8 x 1). It
computes C = B @ A (8 x 8) and AV = A @ V (n x 1). Every integer is written as a fixed-width
two's-complement bit string: 8 bits for A, B and V, 16 bits for C and AV. One file line holds
one row, with the encodings concatenated and no separator.

The model has four modules:

- `SignedBinary` (`signed_binary.dfy`) models the encoder `to_signed_binary`. It clamps to
  the signed range of `bits` bits and then writes `format(v, '0{bits}b')` for v >= 0 or
  `format((1 << bits) + v, '0{bits}b')` for v < 0. Python's `format` is modelled as the
  shortest binary numeral (`Bin`), left-padded with '0' (`FormatBinary`). The module also has
  a two's-complement decoder (`Unsigned`, `Signed`). Proofs against that decoder show:
  - the output always has exactly `bits` characters, all '0' or '1';
  - decoding gives back the clamped number, so in-range numbers (bounds included) come back
    unchanged;
  - out-of-range numbers encode like the nearest bound;
  - the leading bit is the sign;
  - every bit string is the encoding of its own decoded value.
- `Matrices` (`matrices.dfy`) models `np.matmul` as dot products over `seq<seq<int>>` with
  unbounded integers. Lemmas show:
  - the product's shape;
  - each entry equals the textbook sum over the inner index;
  - with 8-bit operands the int32 widening (`astype(np.int32)`) cannot overflow for any inner
    dimension up to 131071.
- `Serialization` (`serialization.dfy`) holds the row encoding `''.join(...)` (`SerializeRow`)
  and a field-by-field reader (`ParseRow`). It also holds the two writing loops as methods:
  the row loop for A, B and C, and the per-element loop for V and AV. Both methods are proved
  to produce `SerializeMatrix` of the matrix.
- `Driver` (`driver.dfy`) models `generate_and_save_data` as a method:
  - the random draws are inputs;
  - each file becomes a `Record(entity, lines)` appended to the result;
  - the skip messages become `Report` values.

  The method is proved equal to the specification function `Plan`. Lemmas about `Plan` state
  which entities appear for each flag combination, and in which order. They also state what
  each file decodes to.

The 16-bit outputs of the products can saturate. An entry of C is a sum
of n products of 8-bit values, and an entry of AV is a sum of 8 of them. Each product is at
most 16384. `MatrixProductMaySaturate` shows that C overflows 16 bits for any n >= 2 when row
0 of B and column 0 of A are all -128. `VectorProductMaySaturate` shows that AV overflows for
every n when row 0 of A and all of V are -128. In both cases the file holds 32767. Saturation
is the encoder's documented behaviour, so this is recorded as a property, not as a defect.

## Model

| member | source | states |
|---|---|---|
| `SignedBinary.Saturate` | Pre-Synthesis_Simulation/matrix.py:15-26 | the clamped value lies in [-2^(bits-1), 2^(bits-1)-1]; a number already in that range, bounds included, is kept; a number above it becomes the maximum and one below it the minimum |
| `SignedBinary.FormatBinary` | Pre-Synthesis_Simulation/matrix.py:31 | `format(x, '0{width}b')` is a '0'/'1' string of at least `width` characters |
| `SignedBinary.ToSignedBinary` | Pre-Synthesis_Simulation/matrix.py:3-35 | for bits >= 1 the encoding has exactly `bits` characters, each '0' or '1' |
| `SignedBinary.EncodeDecode` | Pre-Synthesis_Simulation/matrix.py:15-35 | decoding the output as a bits-wide two's-complement number gives the clamped input |
| `SignedBinary.RoundTrip` | Pre-Synthesis_Simulation/matrix.py:25-35 | every number in [-2^(bits-1), 2^(bits-1)-1], bounds included, decodes back to itself |
| `SignedBinary.Saturation` | Pre-Synthesis_Simulation/matrix.py:19-24 | a number above the maximum encodes like the maximum; one below the minimum encodes like the minimum |
| `SignedBinary.SignBit` | Pre-Synthesis_Simulation/matrix.py:29-35 | the first character is '0' exactly when the clamped value is >= 0, and '1' exactly when it is negative |
| `SignedBinary.DecodeEncode` | Pre-Synthesis_Simulation/matrix.py:29-35 | every '0'/'1' string of length >= 1 is the encoding of its own two's-complement value, so the encoder maps the signed range onto all bit strings of that width |
| `SignedBinary.ExampleFive` | Pre-Synthesis_Simulation/matrix.py:29-31 | 5 at 8 bits is "00000101" |
| `SignedBinary.ExampleMinusFive` | Pre-Synthesis_Simulation/matrix.py:32-35 | -5 at 8 bits is "11111011" |
| `SignedBinary.ExampleAboveRange` | Pre-Synthesis_Simulation/matrix.py:19-21 | 127 and 128 at 8 bits both give "01111111" |
| `SignedBinary.ExampleBelowRange` | Pre-Synthesis_Simulation/matrix.py:22-24 | -128 and -129 at 8 bits both give "10000000" |
| `Matrices.MatMul` | Pre-Synthesis_Simulation/matrix.py:114 | the product of a p x q and a q x c matrix has shape p x c (8 x 8 for B @ A, n x 1 for A @ V) |
| `Matrices.MatMulEntry` | Pre-Synthesis_Simulation/matrix.py:147 | entry (i, j) of the product is exactly the sum over k of l[i][k] * r[k][j] |
| `Matrices.AccumulatorFitsInt32` | Pre-Synthesis_Simulation/matrix.py:114 | with operands in [-128, 127] and inner dimension <= 131071, every product entry lies in the int32 range, so the widened numpy sums equal the exact sums |
| `Serialization.SerializeRow` | Pre-Synthesis_Simulation/matrix.py:85-86 | a row's line is a '0'/'1' string of length bits * (number of entries) |
| `Serialization.ParseSerializeRow` | Pre-Synthesis_Simulation/matrix.py:84-86 | cutting a row's line into bits-wide fields and decoding them gives the row's entries, each clamped |
| `Serialization.RowRoundTrip` | Pre-Synthesis_Simulation/matrix.py:100-102 | a row whose entries fit in `bits` bits is read back exactly |
| `Serialization.SingleEntryRow` | Pre-Synthesis_Simulation/matrix.py:139-141 | the one-entry-per-line format of a column vector is the row format for a one-entry row |
| `Serialization.WriteRows` | Pre-Synthesis_Simulation/matrix.py:119-122 | the row loop writes `SerializeMatrix`: one line per row, each line that row's encoding |
| `Serialization.WriteColumn` | Pre-Synthesis_Simulation/matrix.py:152-155 | the per-element loop over an n x 1 matrix writes the same lines as the row format |
| `Driver.GenerateAndSaveData` | Pre-Synthesis_Simulation/matrix.py:37-158 | the records written are `Plan` of the inputs; n <= 0 gives only InvalidDimension; otherwise the reports are exactly ProductSkipped when C is requested without A and B, then VectorProductSkipped when AV is requested without A, in that order |
| `Driver.PlanGating` | Pre-Synthesis_Simulation/matrix.py:63-131 | n <= 0 writes nothing; otherwise A and B are written iff requested, C iff requested and A and B were generated, V and AV iff requested and A was generated; each at most once, in the order A, B, C, V, AV |
| `Driver.PlanContents` | Pre-Synthesis_Simulation/matrix.py:76-158 | A, B and V files decode exactly to the drawn values, with lines of 64, 8n and 8 characters; C and AV files decode to B @ A and A @ V with each entry clamped to 16 bits, with lines of 128 and 16 characters |
| `Driver.OperandLines` | Pre-Synthesis_Simulation/matrix.py:70-86 | values drawn from [-128, 127] never saturate at 8 bits, so their file reads back exactly |
| `Driver.MatrixLines` | Pre-Synthesis_Simulation/matrix.py:119-122 | a written matrix reads back as the matrix with each entry clamped |
| `Driver.MatrixProductMaySaturate` | Pre-Synthesis_Simulation/matrix.py:114-122 | for n >= 2, when row 0 of B and column 0 of A are all -128, C[0][0] is 16384 n > 32767 and the file holds 32767; from n = 131072 on, that entry exceeds the int32 range |
| `Driver.VectorProductMaySaturate` | Pre-Synthesis_Simulation/matrix.py:147-155 | for every n, when row 0 of A and all of V are -128, AV[0][0] is 131072 and the file holds 32767 |
| `Driver.VectorProductExample` | Pre-Synthesis_Simulation/matrix.py:147-155 | A = [[1,0,...,0]] and V = [[2],[0],...,[0]] give AV = [[2]], written as "0000000000000010" |

## Left out

- Random generation (`np.random.randint`, lines 78, 94, 133) is nondeterministic. The draws are inputs to `GenerateAndSaveData`, with a precondition giving their shapes and the range [-128, 127].
- File output (`open`, `write`, the trailing newline, lines 82-89 and the four similar blocks) is I/O. Each file is a `Record` of its lines.
- The `try/except` around each write is not modelled, because the model has no I/O that could fail. A failed write would affect only its own file.
- The `print` calls are console output. The two skip messages and the invalid-`n` message become `Report` values. All other printing is left out.
- The output file names (lines 81, 97, 117, 136, 150) are plain string formatting of the prefix and `n`. Only the entity tag (A, B, C, V, AV) is kept.
- The `isinstance(n, int)` test (line 63) is a dynamic type check. `n` is an `int` in the model, so only `n <= 0` is tested.
- numpy dtypes (`int16` storage, `astype(np.int32)`) are not modelled. Integers are unbounded.
- MatMul: does not model int32 wrap-around. `AccumulatorFitsInt32` shows it cannot happen for 8-bit operands with an inner dimension up to 131071. For n >= 131072 an entry of B @ A can reach 2^31, for example when exactly 131072 of the products in row 0 of B times column 0 of A are (-128)·(-128) and the rest are 0. numpy reduces it modulo 2^32 to -2^31, so the program writes "1000000000000000" where `Plan` writes 32767.
- ToSignedBinary: requires bits >= 1. For bits < 1 the source raises ValueError at line 35 on every input, and its only callers pass 8 and 16.
- The `__main__` scenario (lines 161-204) is a fixed call of the driver and is not modelled.
