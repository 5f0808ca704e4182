/** The constant tables of DES (FIPS 46-3, "Enciphering" and Appendix 1) as
    crypt_util.c lists them, and the few facts about their entries that the
    proofs need.  Entries count bits from 1, as the standard does. */
module DesTables {

  type BlockBit = n: nat | 1 <= n <= 64 witness 1
  type KeyBit = n: nat | 1 <= n <= 64 && n % 8 != 0 witness 1
  type LowHalfBit = n: nat | 1 <= n <= 28 witness 1
  type HighHalfBit = n: nat | 29 <= n <= 56 witness 29
  type HalfBit = n: nat | 1 <= n <= 32 witness 1
  type Rotation = n: nat | 1 <= n <= 2 witness 1
  type Nibble = n: nat | n < 16

  type SRow = r: seq<Nibble> | |r| == 16 witness seq(16, _ => 0)

  datatype SBoxTable = SBoxTable(row0: SRow, row1: SRow, row2: SRow, row3: SRow) {
    function Row(r: nat): SRow
      requires r < 4
    {
      if r == 0 then row0 else if r == 1 then row1 else if r == 2 then row2 else row3
    }
  }

  /** Permuted choice 1: which key bit feeds bit i of the key register; never a parity bit. */
  function Pc1(i: nat): (b: KeyBit)
    requires i < 56
  {
    var row: seq<KeyBit> :=
      match i / 7
      case 0 => [57, 49, 41, 33, 25, 17,  9]
      case 1 => [ 1, 58, 50, 42, 34, 26, 18]
      case 2 => [10,  2, 59, 51, 43, 35, 27]
      case 3 => [19, 11,  3, 60, 52, 44, 36]
      case 4 => [63, 55, 47, 39, 31, 23, 15]
      case 5 => [ 7, 62, 54, 46, 38, 30, 22]
      case 6 => [14,  6, 61, 53, 45, 37, 29]
      case _ => [21, 13,  5, 28, 20, 12,  4];
    row[i % 7]
  }

  /** Permuted choice 2, first half: these bits come from the C register. */
  function Pc2C(i: nat): (b: LowHalfBit)
    requires i < 24
  {
    var row: seq<LowHalfBit> :=
      match i / 6
      case 0 => [14, 17, 11, 24,  1,  5]
      case 1 => [ 3, 28, 15,  6, 21, 10]
      case 2 => [23, 19, 12,  4, 26,  8]
      case _ => [16,  7, 27, 20, 13,  2];
    row[i % 6]
  }

  /** Permuted choice 2, second half: these bits come from the D register. */
  function Pc2D(i: nat): (b: HighHalfBit)
    requires i < 24
  {
    var row: seq<HighHalfBit> :=
      match i / 6
      case 0 => [41, 52, 31, 37, 47, 55]
      case 1 => [30, 40, 51, 45, 33, 48]
      case 2 => [44, 49, 39, 56, 34, 53]
      case _ => [46, 42, 50, 36, 29, 32];
    row[i % 6]
  }

  /** The E bit-selection table. */
  function ESel(i: nat): (b: HalfBit)
    requires i < 48
  {
    var row: seq<HalfBit> :=
      match i / 6
      case 0 => [32,  1,  2,  3,  4,  5]
      case 1 => [ 4,  5,  6,  7,  8,  9]
      case 2 => [ 8,  9, 10, 11, 12, 13]
      case 3 => [12, 13, 14, 15, 16, 17]
      case 4 => [16, 17, 18, 19, 20, 21]
      case 5 => [20, 21, 22, 23, 24, 25]
      case 6 => [24, 25, 26, 27, 28, 29]
      case _ => [28, 29, 30, 31, 32,  1];
    row[i % 6]
  }

  /** The permutation P. */
  function Perm32(i: nat): (b: HalfBit)
    requires i < 32
  {
    var row: seq<HalfBit> :=
      match i / 4
      case 0 => [16,  7, 20, 21]
      case 1 => [29, 12, 28, 17]
      case 2 => [ 1, 15, 23, 26]
      case 3 => [ 5, 18, 31, 10]
      case 4 => [ 2,  8, 24, 14]
      case 5 => [32, 27,  3,  9]
      case 6 => [19, 13, 30,  6]
      case _ => [22, 11,  4, 25];
    row[i % 4]
  }

  /** The initial permutation IP. */
  function InitialPerm(i: nat): (b: BlockBit)
    requires i < 64
  {
    var row: seq<BlockBit> :=
      match i / 8
      case 0 => [58, 50, 42, 34, 26, 18, 10,  2]
      case 1 => [60, 52, 44, 36, 28, 20, 12,  4]
      case 2 => [62, 54, 46, 38, 30, 22, 14,  6]
      case 3 => [64, 56, 48, 40, 32, 24, 16,  8]
      case 4 => [57, 49, 41, 33, 25, 17,  9,  1]
      case 5 => [59, 51, 43, 35, 27, 19, 11,  3]
      case 6 => [61, 53, 45, 37, 29, 21, 13,  5]
      case _ => [63, 55, 47, 39, 31, 23, 15,  7];
    row[i % 8]
  }

  /** Its inverse, the final permutation. */
  function FinalPerm(i: nat): (b: BlockBit)
    requires i < 64
  {
    var row: seq<BlockBit> :=
      match i / 8
      case 0 => [40,  8, 48, 16, 56, 24, 64, 32]
      case 1 => [39,  7, 47, 15, 55, 23, 63, 31]
      case 2 => [38,  6, 46, 14, 54, 22, 62, 30]
      case 3 => [37,  5, 45, 13, 53, 21, 61, 29]
      case 4 => [36,  4, 44, 12, 52, 20, 60, 28]
      case 5 => [35,  3, 43, 11, 51, 19, 59, 27]
      case 6 => [34,  2, 42, 10, 50, 18, 58, 26]
      case _ => [33,  1, 41,  9, 49, 17, 57, 25];
    row[i % 8]
  }

  /** How far each half of the key register turns before round i. */
  function Rots(i: nat): Rotation
    requires i < 16
  {
    if i == 0 || i == 1 || i == 8 || i == 15 then 1 else 2
  }

  const S1: SBoxTable := SBoxTable(
    [14,  4, 13,  1,  2, 15, 11,  8,  3, 10,  6, 12,  5,  9,  0,  7],
    [ 0, 15,  7,  4, 14,  2, 13,  1, 10,  6, 12, 11,  9,  5,  3,  8],
    [ 4,  1, 14,  8, 13,  6,  2, 11, 15, 12,  9,  7,  3, 10,  5,  0],
    [15, 12,  8,  2,  4,  9,  1,  7,  5, 11,  3, 14, 10,  0,  6, 13])

  const S2: SBoxTable := SBoxTable(
    [15,  1,  8, 14,  6, 11,  3,  4,  9,  7,  2, 13, 12,  0,  5, 10],
    [ 3, 13,  4,  7, 15,  2,  8, 14, 12,  0,  1, 10,  6,  9, 11,  5],
    [ 0, 14,  7, 11, 10,  4, 13,  1,  5,  8, 12,  6,  9,  3,  2, 15],
    [13,  8, 10,  1,  3, 15,  4,  2, 11,  6,  7, 12,  0,  5, 14,  9])

  const S3: SBoxTable := SBoxTable(
    [10,  0,  9, 14,  6,  3, 15,  5,  1, 13, 12,  7, 11,  4,  2,  8],
    [13,  7,  0,  9,  3,  4,  6, 10,  2,  8,  5, 14, 12, 11, 15,  1],
    [13,  6,  4,  9,  8, 15,  3,  0, 11,  1,  2, 12,  5, 10, 14,  7],
    [ 1, 10, 13,  0,  6,  9,  8,  7,  4, 15, 14,  3, 11,  5,  2, 12])

  const S4: SBoxTable := SBoxTable(
    [ 7, 13, 14,  3,  0,  6,  9, 10,  1,  2,  8,  5, 11, 12,  4, 15],
    [13,  8, 11,  5,  6, 15,  0,  3,  4,  7,  2, 12,  1, 10, 14,  9],
    [10,  6,  9,  0, 12, 11,  7, 13, 15,  1,  3, 14,  5,  2,  8,  4],
    [ 3, 15,  0,  6, 10,  1, 13,  8,  9,  4,  5, 11, 12,  7,  2, 14])

  const S5: SBoxTable := SBoxTable(
    [ 2, 12,  4,  1,  7, 10, 11,  6,  8,  5,  3, 15, 13,  0, 14,  9],
    [14, 11,  2, 12,  4,  7, 13,  1,  5,  0, 15, 10,  3,  9,  8,  6],
    [ 4,  2,  1, 11, 10, 13,  7,  8, 15,  9, 12,  5,  6,  3,  0, 14],
    [11,  8, 12,  7,  1, 14,  2, 13,  6, 15,  0,  9, 10,  4,  5,  3])

  const S6: SBoxTable := SBoxTable(
    [12,  1, 10, 15,  9,  2,  6,  8,  0, 13,  3,  4, 14,  7,  5, 11],
    [10, 15,  4,  2,  7, 12,  9,  5,  6,  1, 13, 14,  0, 11,  3,  8],
    [ 9, 14, 15,  5,  2,  8, 12,  3,  7,  0,  4, 10,  1, 13, 11,  6],
    [ 4,  3,  2, 12,  9,  5, 15, 10, 11, 14,  1,  7,  6,  0,  8, 13])

  const S7: SBoxTable := SBoxTable(
    [ 4, 11,  2, 14, 15,  0,  8, 13,  3, 12,  9,  7,  5, 10,  6,  1],
    [13,  0, 11,  7,  4,  9,  1, 10, 14,  3,  5, 12,  2, 15,  8,  6],
    [ 1,  4, 11, 13, 12,  3,  7, 14, 10, 15,  6,  8,  0,  5,  9,  2],
    [ 6, 11, 13,  8,  1,  4, 10,  7,  9,  5,  0, 15, 14,  2,  3, 12])

  const S8: SBoxTable := SBoxTable(
    [13,  2,  8,  4,  6, 15, 11,  1, 10,  9,  3, 14,  5,  0, 12,  7],
    [ 1, 15, 13,  8, 10,  3,  7,  4, 12,  5,  6, 11,  0, 14,  9,  2],
    [ 7, 11,  4,  1,  9, 12, 14,  2,  0,  6, 10, 13, 15,  3,  5,  8],
    [ 2,  1, 14,  7,  4, 10,  8, 13, 15, 12,  9,  0,  3,  5,  6, 11])

  /** The selection functions, counted from 0. */
  function SBox(i: nat): SBoxTable
    requires i < 8
  {
    match i
    case 0 => S1
    case 1 => S2
    case 2 => S3
    case 3 => S4
    case 4 => S5
    case 5 => S6
    case 6 => S7
    case _ => S8
  }

  /** IP in closed form: entry 8r + c. */
  function InitialPermAt(r: nat, c: nat): (b: int)
  {
    (if r < 4 then 58 + 2 * r else 49 + 2 * r) - 8 * c
  }

  /** The final permutation in closed form: entry 8r + c. */
  function FinalPermAt(r: nat, c: nat): (b: int)
  {
    (if c % 2 == 0 then 40 + 4 * c else 4 + 4 * c) - r
  }

  lemma InitialPermValue(i: nat)
    requires i < 64
    ensures InitialPerm(i) == InitialPermAt(i / 8, i % 8)
  {
  }

  lemma FinalPermValue(i: nat)
    requires i < 64
    ensures FinalPerm(i) == FinalPermAt(i / 8, i % 8)
  {
  }

  lemma Position(x: nat, r: nat, c: nat)
    requires x == 8 * r + c && c < 8
    ensures x / 8 == r && x % 8 == c
  {
  }

  lemma FinalAfterInitialAt(r: nat, c: nat)
    requires r < 8 && c < 8
    ensures 0 <= InitialPermAt(r, c) - 1 < 64
    ensures FinalPermAt((InitialPermAt(r, c) - 1) / 8, (InitialPermAt(r, c) - 1) % 8) == 8 * r + c + 1
  {
    var r', c' := 7 - c, if r < 4 then 2 * r + 1 else 2 * r - 8;
    Position(InitialPermAt(r, c) - 1, r', c');
  }

  lemma FinalUndoesInitial(i: nat)
    requires i < 64
    ensures FinalPerm(InitialPerm(i) - 1) == i + 1
  {
    InitialPermValue(i);
    FinalAfterInitialAt(i / 8, i % 8);
    FinalPermValue(InitialPermAt(i / 8, i % 8) - 1);
  }

  lemma InitialUndoesFinal(i: nat)
    requires i < 64
    ensures InitialPerm(FinalPerm(i) - 1) == i + 1
  {
    var r, c := i / 8, i % 8;
    FinalPermValue(i);
    var r', c' := if c % 2 == 0 then 4 + c / 2 else c / 2, 7 - r;
    assert FinalPermAt(r, c) - 1 == 8 * r' + c';
    Position(FinalPermAt(r, c) - 1, r', c');
    InitialPermValue(FinalPermAt(r, c) - 1);
  }
}
