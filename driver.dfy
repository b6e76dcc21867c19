/** The driver `generate_and_save_data` of matrix.py. The random draws are inputs, and each
    file it would write becomes a Record (the entity and its lines) appended to the result;
    the skip diagnostics it prints become Reports. */
module Driver {
  import opened SignedBinary
  import opened Matrices
  import opened Serialization

  datatype Option<T> = None | Some(value: T)

  /** The five entities the driver can write, in the order it writes them. */
  datatype Entity = A | B | C | V | AV

  /** One written file: the entity it holds and its lines, without line terminators. */
  datatype Record = Record(entity: Entity, lines: seq<string>)

  /** The driver's diagnostics: a dimension that is not positive, and a product skipped
      because an operand was not generated. */
  datatype Report = InvalidDimension | ProductSkipped | VectorProductSkipped

  /** The four switches of the driver. */
  datatype Flags = Flags(generateA: bool, generateB: bool, matrixProduct: bool, vectorProduct: bool)

  /** What the random draws deliver for dimension n: A is n x 8, B is 8 x n and V is 8 x 1,
      all with entries in [-128, 127]. */
  predicate Draws(n: nat, a: Matrix, b: Matrix, v: Matrix) {
    && IsShape(a, n, 8) && IsShape(b, 8, n) && IsShape(v, 8, 1)
    && InRange(a, MinSigned(8), MaxSigned(8)) && InRange(b, MinSigned(8), MaxSigned(8))
    && InRange(v, MinSigned(8), MaxSigned(8))
  }

  /** The files the driver writes, in order: A and B when requested, C = B @ A when requested
      and both were generated, V and AV = A @ V when requested and A was generated; nothing
      at all when n is not positive. */
  function Plan(n: int, flags: Flags, a: Matrix, b: Matrix, v: Matrix): seq<Record>
    requires n > 0 ==> Draws(n, a, b, v)
  {
    if n <= 0 then []
    else
      (if flags.generateA then [Record(A, SerializeMatrix(a, 8))] else [])
      + (if flags.generateB then [Record(B, SerializeMatrix(b, 8))] else [])
      + (if flags.matrixProduct && flags.generateA && flags.generateB
         then [Record(C, SerializeMatrix(MatMul(b, a, 8), 16))] else [])
      + (if flags.vectorProduct && flags.generateA
         then [Record(V, SerializeMatrix(v, 8)), Record(AV, SerializeMatrix(MatMul(a, v, 1), 16))]
         else [])
  }

  /** `generate_and_save_data`: `drawA`, `drawB` and `drawV` stand for the values
      `np.random.randint` would return; each is used only when the driver would draw it. */
  method GenerateAndSaveData(n: int, flags: Flags, drawA: Matrix, drawB: Matrix, drawV: Matrix)
    returns (records: seq<Record>, reports: seq<Report>)
    requires n > 0 ==> Draws(n, drawA, drawB, drawV)
    ensures records == Plan(n, flags, drawA, drawB, drawV)
    ensures n <= 0 ==> reports == [InvalidDimension]
    ensures n > 0 ==> InvalidDimension !in reports
    ensures n > 0 ==>
              (ProductSkipped in reports <==>
                 flags.matrixProduct && !(flags.generateA && flags.generateB))
    ensures n > 0 ==>
              (VectorProductSkipped in reports <==> flags.vectorProduct && !flags.generateA)
    ensures n > 0 ==>
              reports ==
                (if flags.matrixProduct && !(flags.generateA && flags.generateB)
                 then [ProductSkipped] else []) +
                (if flags.vectorProduct && !flags.generateA then [VectorProductSkipped] else [])
  {
    records, reports := [], [];
    if n <= 0 {
      reports := [InvalidDimension];
      return;
    }
    var matrixA: Option<Matrix> := None;
    var matrixB: Option<Matrix> := None;
    var lines: seq<string>;

    if flags.generateA {
      matrixA := Some(drawA);
      lines := WriteRows(drawA, 8);
      records := records + [Record(A, lines)];
    }

    if flags.generateB {
      matrixB := Some(drawB);
      lines := WriteRows(drawB, 8);
      records := records + [Record(B, lines)];
    }

    if flags.matrixProduct {
      if matrixA.None? || matrixB.None? {
        reports := reports + [ProductSkipped];
      } else {
        var product := MatMul(matrixB.value, matrixA.value, 8);
        lines := WriteRows(product, 16);
        records := records + [Record(C, lines)];
      }
    }

    if flags.vectorProduct {
      if matrixA.None? {
        reports := reports + [VectorProductSkipped];
      } else {
        var vector := drawV;
        lines := WriteColumn(vector, 8);
        records := records + [Record(V, lines)];
        var result := MatMul(matrixA.value, vector, 1);
        lines := WriteColumn(result, 16);
        records := records + [Record(AV, lines)];
      }
    }
  }

  // ----- What the written files contain -----

  function Entities(records: seq<Record>): (es: seq<Entity>)
  {
    seq(|records|, k requires 0 <= k < |records| => records[k].entity)
  }

  /** Position of an entity in the driver's writing order. */
  function Rank(e: Entity): nat
  {
    match e
    case A => 0
    case B => 1
    case C => 2
    case V => 3
    case AV => 4
  }

  /** Each entity at most once, in the driver's writing order. */
  predicate InWritingOrder(es: seq<Entity>) {
    forall i, j :: 0 <= i < j < |es| ==> Rank(es[i]) < Rank(es[j])
  }

  /** The entities written for a positive n under the given flags. */
  function Emitted(flags: Flags): seq<Entity> {
    (if flags.generateA then [A] else [])
    + (if flags.generateB then [B] else [])
    + (if flags.matrixProduct && flags.generateA && flags.generateB then [C] else [])
    + (if flags.vectorProduct && flags.generateA then [V, AV] else [])
  }

  lemma EntitiesAppend(x: seq<Record>, y: seq<Record>)
    ensures Entities(x + y) == Entities(x) + Entities(y)
  {
  }

  lemma PlanEntities(n: int, flags: Flags, a: Matrix, b: Matrix, v: Matrix)
    requires n > 0 && Draws(n, a, b, v)
    ensures Entities(Plan(n, flags, a, b, v)) == Emitted(flags)
  {
    var pa := if flags.generateA then [Record(A, SerializeMatrix(a, 8))] else [];
    var pb := if flags.generateB then [Record(B, SerializeMatrix(b, 8))] else [];
    var pc := if flags.matrixProduct && flags.generateA && flags.generateB
              then [Record(C, SerializeMatrix(MatMul(b, a, 8), 16))] else [];
    var pv := if flags.vectorProduct && flags.generateA
              then [Record(V, SerializeMatrix(v, 8)), Record(AV, SerializeMatrix(MatMul(a, v, 1), 16))]
              else [];
    assert Plan(n, flags, a, b, v) == pa + pb + pc + pv;
    EntitiesAppend(pa, pb);
    EntitiesAppend(pa + pb, pc);
    EntitiesAppend(pa + pb + pc, pv);
    assert Entities(pa) == if flags.generateA then [A] else [];
    assert Entities(pb) == if flags.generateB then [B] else [];
    assert Entities(pc) == if flags.matrixProduct && flags.generateA && flags.generateB then [C] else [];
    assert Entities(pv) == if flags.vectorProduct && flags.generateA then [V, AV] else [];
  }

  lemma EmittedInWritingOrder(flags: Flags)
    ensures InWritingOrder(Emitted(flags))
  {
    var ea := if flags.generateA then [A] else [];
    var eb := if flags.generateB then [B] else [];
    var ec := if flags.matrixProduct && flags.generateA && flags.generateB then [C] else [];
    var ev := if flags.vectorProduct && flags.generateA then [V, AV] else [];
    assert forall i :: 0 <= i < |ev| ==> Rank(ev[i]) == 3 + i;
    var es := Emitted(flags);
    assert es == ea + eb + ec + ev;
    forall i, j | 0 <= i < j < |es| ensures Rank(es[i]) < Rank(es[j]) {
      if j < |ea| + |eb| + |ec| {
        assert (ea + eb + ec)[i] == es[i] && (ea + eb + ec)[j] == es[j];
      }
    }
  }

  /** Which files are written for each combination of flags: none for a non-positive n,
      otherwise A and B exactly when requested, C exactly when requested with both operands
      generated, V and AV exactly when requested with A generated; each at most once and in
      the order A, B, C, V, AV. */
  lemma PlanGating(n: int, flags: Flags, a: Matrix, b: Matrix, v: Matrix)
    requires n > 0 ==> Draws(n, a, b, v)
    ensures n <= 0 ==> Plan(n, flags, a, b, v) == []
    ensures n > 0 ==>
              var es := Entities(Plan(n, flags, a, b, v));
              && (A in es <==> flags.generateA)
              && (B in es <==> flags.generateB)
              && (C in es <==> flags.matrixProduct && flags.generateA && flags.generateB)
              && (V in es <==> flags.vectorProduct && flags.generateA)
              && (AV in es <==> flags.vectorProduct && flags.generateA)
    ensures InWritingOrder(Entities(Plan(n, flags, a, b, v)))
  {
    if n > 0 {
      PlanEntities(n, flags, a, b, v);
      EmittedInWritingOrder(flags);
    }
  }

  /** The lines decode, field by field, to the rows of m, and each line is `bits` characters
      per entry. */
  predicate LinesDecodeTo(lines: seq<string>, bits: nat, m: Matrix)
    requires bits >= 1
  {
    |lines| == |m| &&
    forall i :: 0 <= i < |lines| ==>
      |lines[i]| == bits * |m[i]| && IsBinary(lines[i]) && ParseRow(lines[i], bits) == m[i]
  }

  function SaturateMatrix(m: Matrix, bits: nat): (s: Matrix)
    requires bits >= 1
  {
    seq(|m|, i requires 0 <= i < |m| => SaturateAll(m[i], bits))
  }

  /** A written matrix reads back as the matrix with every entry saturated. */
  lemma MatrixLines(m: Matrix, bits: nat)
    requires bits >= 1
    ensures LinesDecodeTo(SerializeMatrix(m, bits), bits, SaturateMatrix(m, bits))
  {
    forall i | 0 <= i < |m|
      ensures ParseRow(SerializeMatrix(m, bits)[i], bits) == SaturateMatrix(m, bits)[i]
    {
      ParseSerializeRow(m[i], bits);
    }
  }

  /** Generated operands are in 8-bit range, so they never saturate and their files read
      back exactly. */
  lemma OperandLines(m: Matrix)
    requires InRange(m, MinSigned(8), MaxSigned(8))
    ensures LinesDecodeTo(SerializeMatrix(m, 8), 8, m)
  {
    WidthBounds();
    forall i | 0 <= i < |m|
      ensures ParseRow(SerializeMatrix(m, 8)[i], 8) == m[i]
    {
      RowRoundTrip(m[i], 8);
    }
  }

  /** What each written file holds: A, B and V read back exactly as drawn (rows of 64, 8 n and
      8 characters); C reads back as B @ A and AV as A @ V, each entry saturated to 16 bits
      (rows of 128 and 16 characters). */
  lemma PlanContents(n: int, flags: Flags, a: Matrix, b: Matrix, v: Matrix, k: nat)
    requires n > 0 && Draws(n, a, b, v)
    requires k < |Plan(n, flags, a, b, v)|
    ensures var r := Plan(n, flags, a, b, v)[k];
            && (r.entity == A ==> LinesDecodeTo(r.lines, 8, a))
            && (r.entity == B ==> LinesDecodeTo(r.lines, 8, b))
            && (r.entity == C ==> LinesDecodeTo(r.lines, 16, SaturateMatrix(MatMul(b, a, 8), 16)))
            && (r.entity == V ==> LinesDecodeTo(r.lines, 8, v))
            && (r.entity == AV ==> LinesDecodeTo(r.lines, 16, SaturateMatrix(MatMul(a, v, 1), 16)))
  {
    OperandLines(a);
    OperandLines(b);
    OperandLines(v);
    MatrixLines(MatMul(b, a, 8), 16);
    MatrixLines(MatMul(a, v, 1), 16);
  }

  // ----- Saturation of the 16-bit outputs, and a worked example -----

  lemma {:induction false} DotConstant(u: seq<int>, w: seq<int>, x: int, y: int)
    requires |u| == |w|
    requires forall t :: 0 <= t < |u| ==> u[t] == x && w[t] == y
    ensures Dot(u, w) == |u| * (x * y)
  {
    if u != [] {
      DotConstant(u[1..], w[1..], x, y);
    }
  }

  /** C can leave the 16-bit range: for any n >= 2, when row 0 of B and column 0 of A are
      all -128, entry (0, 0) of B @ A is 16384 n > 32767 and C's file holds 32767 there.
      From n = 131072 on, that entry is also beyond the int32 range numpy sums in. */
  lemma MatrixProductMaySaturate(n: nat, a: Matrix, b: Matrix, v: Matrix)
    requires n >= 2 && Draws(n, a, b, v)
    requires forall k :: 0 <= k < n ==> b[0][k] == MinSigned(8) && a[k][0] == MinSigned(8)
    ensures MatMul(b, a, 8)[0][0] == 16384 * n > MaxSigned(16)
    ensures n >= 131072 ==> MatMul(b, a, 8)[0][0] > INT32_MAX
    ensures ParseRow(SerializeMatrix(MatMul(b, a, 8), 16)[0], 16)[0] == MaxSigned(16)
  {
    var c := MatMul(b, a, 8);
    var col := Column(a, 0);
    assert c[0][0] == Dot(b[0], col);
    WidthBounds();
    DotConstant(b[0], col, MinSigned(8), MinSigned(8));
    ParseSerializeRow(c[0], 16);
    assert SaturateAll(c[0], 16)[0] == Saturate(c[0][0], 16);
  }

  /** AV can leave the 16-bit range for every n: when row 0 of A and all of V are -128,
      entry 0 of A @ V is 131072 and AV's file holds 32767 there. */
  lemma VectorProductMaySaturate(n: nat, a: Matrix, b: Matrix, v: Matrix)
    requires n >= 1 && Draws(n, a, b, v)
    requires forall k :: 0 <= k < 8 ==> a[0][k] == MinSigned(8) && v[k][0] == MinSigned(8)
    ensures MatMul(a, v, 1)[0][0] == 131072
    ensures ParseRow(SerializeMatrix(MatMul(a, v, 1), 16)[0], 16) == [MaxSigned(16)]
  {
    var p := MatMul(a, v, 1);
    var col := Column(v, 0);
    assert p[0][0] == Dot(a[0], col);
    WidthBounds();
    DotConstant(a[0], col, MinSigned(8), MinSigned(8));
    ParseSerializeRow(p[0], 16);
    assert SaturateAll(p[0], 16) == [Saturate(p[0][0], 16)];
  }

  /** A worked example: A = [[1, 0, ..., 0]] and V = [[2], [0], ..., [0]] give AV = [[2]],
      written as the single line "0000000000000010". */
  lemma VectorProductExample()
    ensures var a := [[1, 0, 0, 0, 0, 0, 0, 0]];
            var v := [[2], [0], [0], [0], [0], [0], [0], [0]];
            && MatMul(a, v, 1) == [[2]]
            && SerializeMatrix(MatMul(a, v, 1), 16) == ["0000000000000010"]
  {
    var a := [[1, 0, 0, 0, 0, 0, 0, 0]];
    var v := [[2], [0], [0], [0], [0], [0], [0], [0]];
    var col := Column(v, 0);
    assert col == [2, 0, 0, 0, 0, 0, 0, 0];
    DotConstant(a[0][1..], col[1..], 0, 0);
    assert Dot(a[0], col) == 2;
    var p := MatMul(a, v, 1);
    assert |p| == 1 && |p[0]| == 1 && p[0][0] == Dot(a[0], col);
    assert p[0] == [2];
    assert p == [[2]];
    WidthBounds();
    assert Bin(2) == "10";
    assert ToSignedBinary(2, 16) == Zeros(14) + "10";
    assert Zeros(14) + "10" == "0000000000000010";
    SingleEntryRow(2, 16);
  }
}
