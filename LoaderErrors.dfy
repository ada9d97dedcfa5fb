// Loader errors and library status codes (PeLibAux.h / PeLibAux.cpp).
// The loader records at most one error: the first one reported wins.
module LoaderErrors {

  // Status codes returned by the library's operations.
  const ERROR_NONE: int := 0
  const ERROR_OPENING_FILE: int := -1
  const ERROR_INVALID_FILE: int := -2
  const ERROR_TOO_MANY_SECTIONS: int := -3
  const ERROR_NOT_ENOUGH_SPACE: int := -4
  const ERROR_NO_FILE_ALIGNMENT: int := -5
  const ERROR_NO_SECTION_ALIGNMENT: int := -6
  const ERROR_ENTRY_NOT_FOUND: int := -7
  const ERROR_DUPLICATE_ENTRY: int := -8
  const ERROR_DIRECTORY_DOES_NOT_EXIST: int := -9
  const ERROR_COFF_SYMBOL_TABLE_DOES_NOT_EXIST: int := -10
  const ERROR_SKIP_RESOURCE: int := -11

  /** The number of loader errors (the enumeration's terminating value). */
  const LDR_ERROR_MAX: nat := 54

  /** A loader-error enumerator, by its numeric value. */
  type LoaderError = x: nat | x < 54

  // The enumerators, numbered in declaration order.
  const LDR_ERROR_NONE: LoaderError := 0
  const LDR_ERROR_FILE_TOO_BIG: LoaderError := 1
  const LDR_ERROR_E_LFANEW_UNALIGNED: LoaderError := 2
  const LDR_ERROR_E_LFANEW_OUT_OF_FILE: LoaderError := 3
  const LDR_ERROR_NTHEADER_OFFSET_OVERFLOW: LoaderError := 4
  const LDR_ERROR_NTHEADER_OUT_OF_FILE: LoaderError := 5
  const LDR_ERROR_NO_NT_SIGNATURE: LoaderError := 6
  const LDR_ERROR_FILE_HEADER_INVALID: LoaderError := 7
  const LDR_ERROR_IMAGE_NON_EXECUTABLE: LoaderError := 8
  const LDR_ERROR_NO_OPTHDR_MAGIC: LoaderError := 9
  const LDR_ERROR_SIZE_OF_HEADERS_ZERO: LoaderError := 10
  const LDR_ERROR_FILE_ALIGNMENT_ZERO: LoaderError := 11
  const LDR_ERROR_FILE_ALIGNMENT_NOT_POW2: LoaderError := 12
  const LDR_ERROR_SECTION_ALIGNMENT_ZERO: LoaderError := 13
  const LDR_ERROR_SECTION_ALIGNMENT_NOT_POW2: LoaderError := 14
  const LDR_ERROR_SECTION_ALIGNMENT_TOO_SMALL: LoaderError := 15
  const LDR_ERROR_SECTION_ALIGNMENT_INVALID: LoaderError := 16
  const LDR_ERROR_SIZE_OF_IMAGE_TOO_BIG: LoaderError := 17
  const LDR_ERROR_INVALID_MACHINE32: LoaderError := 18
  const LDR_ERROR_INVALID_MACHINE64: LoaderError := 19
  const LDR_ERROR_SIZE_OF_HEADERS_INVALID: LoaderError := 20
  const LDR_ERROR_SIZE_OF_OPTHDR_NOT_ALIGNED: LoaderError := 21
  const LDR_ERROR_SIZE_OF_IMAGE_ZERO: LoaderError := 22
  const LDR_ERROR_IMAGE_BASE_NOT_ALIGNED: LoaderError := 23
  const LDR_ERROR_SIZE_OF_IMAGE_PTES_ZERO: LoaderError := 24
  const LDR_ERROR_RAW_DATA_OVERFLOW: LoaderError := 25
  const LDR_ERROR_SECTION_HEADERS_OUT_OF_IMAGE: LoaderError := 26
  const LDR_ERROR_SECTION_HEADERS_OVERFLOW: LoaderError := 27
  const LDR_ERROR_SECTION_SIZE_MISMATCH: LoaderError := 28
  const LDR_ERROR_INVALID_SECTION_VA: LoaderError := 29
  const LDR_ERROR_INVALID_SECTION_VSIZE: LoaderError := 30
  const LDR_ERROR_INVALID_SECTION_RAWSIZE: LoaderError := 31
  const LDR_ERROR_INVALID_SIZE_OF_IMAGE: LoaderError := 32
  const LDR_ERROR_FILE_IS_CUT: LoaderError := 33
  const LDR_ERROR_FILE_IS_CUT_LOADABLE: LoaderError := 34
  const LDR_ERROR_IMPDIR_OUT_OF_FILE: LoaderError := 35
  const LDR_ERROR_IMPDIR_CUT: LoaderError := 36
  const LDR_ERROR_IMPDIR_COUNT_EXCEEDED: LoaderError := 37
  const LDR_ERROR_IMPDIR_NAME_RVA_INVALID: LoaderError := 38
  const LDR_ERROR_IMPDIR_THUNK_RVA_INVALID: LoaderError := 39
  const LDR_ERROR_IMPDIR_IMPORT_COUNT_EXCEEDED: LoaderError := 40
  const LDR_ERROR_RSRC_OVER_END_OF_IMAGE: LoaderError := 41
  const LDR_ERROR_RSRC_NAME_OUT_OF_IMAGE: LoaderError := 42
  const LDR_ERROR_RSRC_DATA_OUT_OF_IMAGE: LoaderError := 43
  const LDR_ERROR_RSRC_SUBDIR_OUT_OF_IMAGE: LoaderError := 44
  const LDR_ERROR_ENTRY_POINT_OUT_OF_IMAGE: LoaderError := 45
  const LDR_ERROR_ENTRY_POINT_ZEROED: LoaderError := 46
  const LDR_ERROR_DIGITAL_SIGNATURE_CUT: LoaderError := 47
  const LDR_ERROR_DIGITAL_SIGNATURE_ZEROED: LoaderError := 48
  const LDR_ERROR_RELOCATIONS_OUT_OF_IMAGE: LoaderError := 49
  const LDR_ERROR_RELOC_BLOCK_INVALID_VA: LoaderError := 50
  const LDR_ERROR_RELOC_BLOCK_INVALID_LENGTH: LoaderError := 51
  const LDR_ERROR_RELOC_ENTRY_BAD_TYPE: LoaderError := 52
  const LDR_ERROR_INMEMORY_IMAGE: LoaderError := 53

  // The library's descriptive table, kept in enumeration order: row i
  // describes the enumerator whose value is i. Each column is given as its
  // own function of the row number.

  /** The identifier column. */
  function IdentifierColumn(index: nat): string
    requires index < LDR_ERROR_MAX
  {
    match index
    case 0 => "LDR_ERROR_NONE"
    case 1 => "LDR_ERROR_FILE_TOO_BIG"
    case 2 => "LDR_ERROR_E_LFANEW_UNALIGNED"
    case 3 => "LDR_ERROR_E_LFANEW_OUT_OF_FILE"
    case 4 => "LDR_ERROR_NTHEADER_OFFSET_OVERFLOW"
    case 5 => "LDR_ERROR_NTHEADER_OUT_OF_FILE"
    case 6 => "LDR_ERROR_NO_NT_SIGNATURE"
    case 7 => "LDR_ERROR_FILE_HEADER_INVALID"
    case 8 => "LDR_ERROR_IMAGE_NON_EXECUTABLE"
    case 9 => "LDR_ERROR_NO_OPTHDR_MAGIC"
    case 10 => "LDR_ERROR_SIZE_OF_HEADERS_ZERO"
    case 11 => "LDR_ERROR_FILE_ALIGNMENT_ZERO"
    case 12 => "LDR_ERROR_FILE_ALIGNMENT_NOT_POW2"
    case 13 => "LDR_ERROR_SECTION_ALIGNMENT_ZERO"
    case 14 => "LDR_ERROR_SECTION_ALIGNMENT_NOT_POW2"
    case 15 => "LDR_ERROR_SECTION_ALIGNMENT_TOO_SMALL"
    case 16 => "LDR_ERROR_SECTION_ALIGNMENT_INVALID"
    case 17 => "LDR_ERROR_SIZE_OF_IMAGE_TOO_BIG"
    case 18 => "LDR_ERROR_INVALID_MACHINE32"
    case 19 => "LDR_ERROR_INVALID_MACHINE64"
    case 20 => "LDR_ERROR_SIZE_OF_HEADERS_INVALID"
    case 21 => "LDR_ERROR_SIZE_OF_OPTHDR_NOT_ALIGNED"
    case 22 => "LDR_ERROR_SIZE_OF_IMAGE_ZERO"
    case 23 => "LDR_ERROR_IMAGE_BASE_NOT_ALIGNED"
    case 24 => "LDR_ERROR_SIZE_OF_IMAGE_PTES_ZERO"
    case 25 => "LDR_ERROR_RAW_DATA_OVERFLOW"
    case 26 => "LDR_ERROR_SECTION_HEADERS_OUT_OF_IMAGE"
    case 27 => "LDR_ERROR_SECTION_HEADERS_OVERFLOW"
    case 28 => "LDR_ERROR_SECTION_SIZE_MISMATCH"
    case 29 => "LDR_ERROR_INVALID_SECTION_VA"
    case 30 => "LDR_ERROR_INVALID_SECTION_VSIZE"
    case 31 => "LDR_ERROR_INVALID_SECTION_RAWSIZE"
    case 32 => "LDR_ERROR_INVALID_SIZE_OF_IMAGE"
    case 33 => "LDR_ERROR_FILE_IS_CUT"
    case 34 => "LDR_ERROR_FILE_IS_CUT_LOADABLE"
    case 35 => "LDR_ERROR_IMPDIR_OUT_OF_FILE"
    case 36 => "LDR_ERROR_IMPDIR_CUT"
    case 37 => "LDR_ERROR_IMPDIR_COUNT_EXCEEDED"
    case 38 => "LDR_ERROR_IMPDIR_NAME_RVA_INVALID"
    case 39 => "LDR_ERROR_IMPDIR_THUNK_RVA_INVALID"
    case 40 => "LDR_ERROR_IMPDIR_IMPORT_COUNT_EXCEEDED"
    case 41 => "LDR_ERROR_RSRC_OVER_END_OF_IMAGE"
    case 42 => "LDR_ERROR_RSRC_NAME_OUT_OF_IMAGE"
    case 43 => "LDR_ERROR_RSRC_DATA_OUT_OF_IMAGE"
    case 44 => "LDR_ERROR_RSRC_SUBDIR_OUT_OF_IMAGE"
    case 45 => "LDR_ERROR_ENTRY_POINT_OUT_OF_IMAGE"
    case 46 => "LDR_ERROR_ENTRY_POINT_ZEROED"
    case 47 => "LDR_ERROR_DIGITAL_SIGNATURE_CUT"
    case 48 => "LDR_ERROR_DIGITAL_SIGNATURE_ZEROED"
    case 49 => "LDR_ERROR_RELOCATIONS_OUT_OF_IMAGE"
    case 50 => "LDR_ERROR_RELOC_BLOCK_INVALID_VA"
    case 51 => "LDR_ERROR_RELOC_BLOCK_INVALID_LENGTH"
    case 52 => "LDR_ERROR_RELOC_ENTRY_BAD_TYPE"
    case 53 => "LDR_ERROR_INMEMORY_IMAGE"
  }

  /** The loadable-anyway column. */
  function LoadableColumn(index: nat): bool
    requires index < LDR_ERROR_MAX
  {
    match index
    case 0 => false
    case 1 => false
    case 2 => false
    case 3 => false
    case 4 => false
    case 5 => false
    case 6 => false
    case 7 => false
    case 8 => false
    case 9 => false
    case 10 => false
    case 11 => false
    case 12 => false
    case 13 => false
    case 14 => false
    case 15 => false
    case 16 => false
    case 17 => false
    case 18 => false
    case 19 => false
    case 20 => false
    case 21 => false
    case 22 => false
    case 23 => false
    case 24 => false
    case 25 => false
    case 26 => false
    case 27 => false
    case 28 => false
    case 29 => false
    case 30 => false
    case 31 => false
    case 32 => false
    case 33 => false
    case 34 => true
    case 35 => true
    case 36 => true
    case 37 => true
    case 38 => true
    case 39 => true
    case 40 => true
    case 41 => true
    case 42 => true
    case 43 => true
    case 44 => true
    case 45 => true
    case 46 => true
    case 47 => true
    case 48 => true
    case 49 => true
    case 50 => true
    case 51 => true
    case 52 => true
    case 53 => false
  }

  const MISSING_STRING: string := "LDR_ERROR_DESCRIPTIVE_STRING_MISSING"

  /** getLoaderErrorString: the identifier for an in-range index, else a fixed marker. */
  function ErrorString(index: nat): (s: string)
    ensures index < LDR_ERROR_MAX ==> s == IdentifierColumn(index)
    ensures index >= LDR_ERROR_MAX ==> s == MISSING_STRING
  {
    if index < LDR_ERROR_MAX then IdentifierColumn(index) else MISSING_STRING
  }

  /** getLoaderErrorLoadableAnyway: the table's flag, false out of range. */
  function LoadableAnyway(index: nat): (b: bool)
    ensures index >= LDR_ERROR_MAX ==> !b
    ensures index < LDR_ERROR_MAX ==> b == LoadableColumn(index)
  {
    if index < LDR_ERROR_MAX then LoadableColumn(index) else false
  }

  /**
   * Exactly the block of enumerators from FILE_IS_CUT_LOADABLE through the
   * import, resource, entry-point, signature and relocation codes is marked
   * loadable anyway; INMEMORY_IMAGE and everything before the block are not.
   */
  lemma LoadableAnywayExactly(index: nat)
    ensures LoadableAnyway(index) <==>
      LDR_ERROR_FILE_IS_CUT_LOADABLE <= index <= LDR_ERROR_RELOC_ENTRY_BAD_TYPE
  {
    if index < LDR_ERROR_MAX {
      match index
      case 0 => {}
      case 1 => {}
      case 2 => {}
      case 3 => {}
      case 4 => {}
      case 5 => {}
      case 6 => {}
      case 7 => {}
      case 8 => {}
      case 9 => {}
      case 10 => {}
      case 11 => {}
      case 12 => {}
      case 13 => {}
      case 14 => {}
      case 15 => {}
      case 16 => {}
      case 17 => {}
      case 18 => {}
      case 19 => {}
      case 20 => {}
      case 21 => {}
      case 22 => {}
      case 23 => {}
      case 24 => {}
      case 25 => {}
      case 26 => {}
      case 27 => {}
      case 28 => {}
      case 29 => {}
      case 30 => {}
      case 31 => {}
      case 32 => {}
      case 33 => {}
      case 34 => {}
      case 35 => {}
      case 36 => {}
      case 37 => {}
      case 38 => {}
      case 39 => {}
      case 40 => {}
      case 41 => {}
      case 42 => {}
      case 43 => {}
      case 44 => {}
      case 45 => {}
      case 46 => {}
      case 47 => {}
      case 48 => {}
      case 49 => {}
      case 50 => {}
      case 51 => {}
      case 52 => {}
      case 53 => {}
    }
  }

  /** setLoaderError: an error is recorded only while none is recorded yet. */
  function KeepFirst(current: LoaderError, reported: LoaderError): (r: LoaderError)
    ensures current != LDR_ERROR_NONE ==> r == current
    ensures current == LDR_ERROR_NONE ==> r == reported
  {
    if current == LDR_ERROR_NONE then reported else current
  }

  /** The first real error of a sequence of reports, if any. */
  function FirstError(reports: seq<LoaderError>): LoaderError
  {
    if reports == [] then LDR_ERROR_NONE
    else if reports[0] != LDR_ERROR_NONE then reports[0]
    else FirstError(reports[1..])
  }

  /** Reporting errors one after another through KeepFirst. */
  function RecordAll(current: LoaderError, reports: seq<LoaderError>): LoaderError
    decreases |reports|
  {
    if reports == [] then current
    else RecordAll(KeepFirst(current, reports[0]), reports[1..])
  }

  /**
   * After any sequence of reports the loader holds the error it held before,
   * or else the first real error reported: later reports never override.
   */
  lemma {:induction false} RecordAllKeepsFirst(current: LoaderError, reports: seq<LoaderError>)
    ensures RecordAll(current, reports) == KeepFirst(current, FirstError(reports))
    decreases |reports|
  {
    if reports != [] {
      RecordAllKeepsFirst(KeepFirst(current, reports[0]), reports[1..]);
    }
  }
}
