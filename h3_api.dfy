// Shared vocabulary of the H3 core: the 64-bit index word, the error codes
// every public function returns, and the grid constants.

module H3Api {

  /** An H3 index is an unsigned 64-bit word. */
  type H3Index = bv64

  /** The invalid / empty index. */
  const H3_NULL: H3Index := 0

  /** Error codes, in the order of their numeric values 0..16. */
  datatype H3Error =
    | E_SUCCESS
    | E_FAILED
    | E_DOMAIN
    | E_LATLNG_DOMAIN
    | E_RES_DOMAIN
    | E_CELL_INVALID
    | E_DIR_EDGE_INVALID
    | E_UNDIR_EDGE_INVALID
    | E_VERTEX_INVALID
    | E_PENTAGON
    | E_DUPLICATE_INPUT
    | E_NOT_NEIGHBORS
    | E_RES_MISMATCH
    | E_MEMORY_ALLOC
    | E_MEMORY_BOUNDS
    | E_OPTION_INVALID
    | E_INDEX_INVALID

  /** The numeric value of an error code; the C API tests `if (err)`. */
  function ErrorCode(e: H3Error): (c: int)
    ensures 0 <= c <= 16
    ensures (c == 0) <==> e == E_SUCCESS
  {
    match e
    case E_SUCCESS => 0
    case E_FAILED => 1
    case E_DOMAIN => 2
    case E_LATLNG_DOMAIN => 3
    case E_RES_DOMAIN => 4
    case E_CELL_INVALID => 5
    case E_DIR_EDGE_INVALID => 6
    case E_UNDIR_EDGE_INVALID => 7
    case E_VERTEX_INVALID => 8
    case E_PENTAGON => 9
    case E_DUPLICATE_INPUT => 10
    case E_NOT_NEIGHBORS => 11
    case E_RES_MISMATCH => 12
    case E_MEMORY_ALLOC => 13
    case E_MEMORY_BOUNDS => 14
    case E_OPTION_INVALID => 15
    case E_INDEX_INVALID => 16
  }

  /** A value together with the error code of the call that produced it. */
  datatype Result<T> = Ok(value: T) | Err(error: H3Error)

  datatype Option<T> = None | Some(value: T)

  const MAX_H3_RES: int := 15
  const NUM_BASE_CELLS: int := 122
  const NUM_PENTAGONS: int := 12
  const NUM_ICOSA_FACES: int := 20

  // index modes
  const H3_CELL_MODE: int := 1
  const H3_DIRECTEDEDGE_MODE: int := 2
  const H3_EDGE_MODE: int := 3
  const H3_VERTEX_MODE: int := 4

  // digits / directions of the hexagonal lattice
  const CENTER_DIGIT: int := 0
  const K_AXES_DIGIT: int := 1
  const J_AXES_DIGIT: int := 2
  const JK_AXES_DIGIT: int := 3
  const I_AXES_DIGIT: int := 4
  const IK_AXES_DIGIT: int := 5
  const IJ_AXES_DIGIT: int := 6
  const INVALID_DIGIT: int := 7
  const NUM_DIGITS: int := 7
  const PENTAGON_SKIPPED_DIGIT: int := 1

  /** A direction digit as stored in an index: 0..7. */
  predicate IsDigit(d: int) { 0 <= d <= 7 }

  // Narrow bit-vector conversions used by the field accessors: a small
  // integer survives the trip through a bit-vector of its width.
  lemma Conv1(v: int) requires 0 <= v < 2 ensures (v as bv1) as int == v {}
  lemma Conv3(v: int) requires 0 <= v < 8 ensures (v as bv3) as int == v {}
  lemma Conv4(v: int) requires 0 <= v < 16 ensures (v as bv4) as int == v {}
  lemma Conv7(v: int) requires 0 <= v < 128 ensures (v as bv7) as int == v
  {
    if v < 32 {} else if v < 64 {} else if v < 96 {} else {}
  }
}
