# debug_remover in Dafny

`debug_remover` strips the debug metadata from a Windows PE image. It reads the
whole file into a byte buffer, lets the vendored PeLib parse the headers and the
Debug directory, and then:

* finds the 2-byte "PE" signature and zeroes the 8-byte (VirtualAddress, Size)
  pair of data-directory entry 6 (Debug) of the Optional Header, at
  `signature + getFieldOffset(OPTHDR_DataDirectory_DEBUG_Rva)`, which is
  168 bytes in a 32-bit header and 184 in a 64-bit one;
* translates the Debug directory's RVA to a file offset by a section-table
  search, fails with the null-offset error when the offset is 0, and otherwise
  zeroes the 28-byte IMAGE_DEBUG_DIRECTORY records (section 6.1.1 of the
  Microsoft PE/COFF Specification);
* zeroes the raw data each debug entry points at, in entry order;
* writes the buffer next to the input as `stem + "_stripped" + extension`.

The model has one module per source component:

* `Redactor` is `main` and `fill_with_zeroes`. The fills work in place on an
  `array<u8>` (`ZeroDebugData` and its step methods). The run is proved
  against the value-level specifications `FillPhase` and `Redaction`, and
  lemmas state locality, length preservation, idempotence, order
  independence and the order of the error exits.
* `ImageLoader` and `FilePages` cover the loader queries and the imperative
  loader and page-buffer operations.
* `PeAux`, `Alignment`, `LoaderErrors`, `Bytes` and `Paths` cover the
  auxiliary records, the alignment helpers, the loader-error table,
  little-endian encoding and the output-name construction.
* One module per directory parser: `DebugDirectories`, `Relocations`,
  `Resources`, `Imports`, `BoundImports`, `Exports` (with the rebuilt layout
  in `ExportLayout`), `IatDirectories`, `DelayImports`, `CoffSymbols`,
  `SecurityDirectories` and `TlsDirectories`.

The parsers that loop and update fields in place are classes. Each class
method is proved against a recursive specification function of the input
bytes, and the lemmas beside that function state what the source promises
about it.

The mapped image is a byte sequence of `SizeOfImage` bytes, and the file is a
byte sequence. The InputBuffer/OutputBuffer streams are modelled as
little-endian decoding and encoding over sequences; a read past the end of a
buffer yields zero bytes. The PE header parse done by PeFile is not part of
this model: its outcome is a parameter (a success flag, the debug entries and
the image facts). The same goes for `retdec::utils::ordLookUp`, which is a
parameter `lookUp` of the import reader.

The fixed record sizes of PeLibAux.h are constants of `PeAux`: DOS header 64,
file header 20, data directory 8, IMAGE_DEBUG_DIRECTORY 28, and the 72 that
`PELIB_IMAGE_BASE_RELOCATION::size()` reports beside the 8-byte on-disk header.

Integer widths are explicit. 32-bit sums that wrap in the source are written
`% 2^32`, as in `Trunc32` and `Add32`, and `size_t` values are truncated where
the source stores them in 32 bits.

## Model

| member | source | states |
|---|---|---|
| Redactor.ExitCode | debug_remover/main.cpp:69-169 | the process result is 0 exactly when the output was written; every failure exit returns -1 |
| Redactor.Zeroed | debug_remover/main.cpp:63-66 | the buffer after a fill keeps its length, is 0 in [offset, offset + size) and equals the old byte everywhere else |
| Redactor.FillWithZeroes | debug_remover/main.cpp:63-66 | the array after `fill_with_zeroes` is `Zeroed` of the old contents; the range must lie in the buffer, since the source does no bounds check |
| Redactor.ZeroedNothing | debug_remover/main.cpp:63-66 | a fill of no bytes leaves the buffer unchanged |
| Redactor.ZeroedAlreadyZero | debug_remover/main.cpp:63-66 | re-filling a range that is already zero leaves the buffer unchanged |
| Redactor.ApplyFills | debug_remover/main.cpp:144-166 | applying the run's fills in order keeps the buffer's length |
| Redactor.ApplyFillsEffect | debug_remover/main.cpp:144-166 | after the fills, a byte is 0 when some fill covers it and is the input byte otherwise |
| Redactor.ApplyFillsIdempotent | debug_remover/main.cpp:144-166 | applying the same fills a second time changes nothing |
| Redactor.ApplyFillsOrderFree | debug_remover/main.cpp:144-166 | two fill lists with the same members give the same buffer, so the fill order does not matter |
| Redactor.FindSignature | debug_remover/main.cpp:138 | the search returns the first position at or after `from` where "PE" occurs, or none when "PE" occurs nowhere there |
| Redactor.SignatureFoundAtOrBefore | debug_remover/main.cpp:138-140 | when "PE" sits at e_lfanew, the search reports a match at e_lfanew or earlier, so the guard sees a match |
| Redactor.NumEntries | debug_remover/main.cpp:127 | the entry count is at most the stored list's length, and equal to it while the length fits 32 bits |
| Redactor.SlotFills | debug_remover/main.cpp:138-145 | there is at most one slot fill, present exactly when the search reports a match |
| Redactor.DirectoryFill | debug_remover/main.cpp:148-156 | the record fill starts at the translated directory offset and covers 28 bytes per entry while the product fits 32 bits |
| Redactor.EntryFills | debug_remover/main.cpp:159-166 | the k-th entry fill is entry k's range [PointerToRawData, PointerToRawData + SizeOfData), in array order |
| Redactor.Redact | debug_remover/main.cpp:69-169 | the method's outcome is `Redaction`: the failure ladder, then the fill phase and the written output |
| Redactor.ZeroDebugData | debug_remover/main.cpp:138-166 | the in-place fills on a copy of the file data yield `FillPhase`: the filled buffer, a null offset, or a fill outside the buffer |
| Redactor.FillSlot | debug_remover/main.cpp:140-145 | the slot fill succeeds exactly when it lies in the buffer, and then the array holds the slot fill applied |
| Redactor.FillDirectoryAndEntries | debug_remover/main.cpp:148-166 | the record and entry fills succeed exactly when every run fill lies in the buffer, and then the array holds all fills applied |
| Redactor.FillEntries | debug_remover/main.cpp:159-166 | the entry loop succeeds exactly when every entry range lies in the buffer, and then the array holds those fills applied in order |
| Redactor.FillEntry | debug_remover/main.cpp:162-165 | one pass zeroes entry i's range, or reports that the run's fills leave the buffer |
| Redactor.LadderMessagesDistinct | debug_remover/main.cpp:71-154 | the eight failure messages are pairwise distinct |
| Redactor.LadderOrder | debug_remover/main.cpp:71-154 | the run fails with the k-th message exactly when check k fails and every earlier check passes; the order is usage, missing file, empty file, empty data, parse error, missing debug directory, no entries, null offset |
| Redactor.FirstFailingCheck | debug_remover/main.cpp:71-154 | the result is the index of the first failing check, or the ladder's length when all pass |
| Redactor.WrittenShape | debug_remover/main.cpp:105-168 | a written output passed every check, holds the fill phase's buffer, has the input's length and is named from the argument |
| Redactor.FilledBytes | debug_remover/main.cpp:144-166 | each output byte is 0 when a run fill covers it and the input byte otherwise |
| Redactor.SlotZeroed | debug_remover/main.cpp:140-145 | on a match, the 8 bytes at match + getFieldOffset(Debug RVA) are zero in the output |
| Redactor.DirectoryZeroed | debug_remover/main.cpp:148-156 | a filled run has a nonzero directory offset, and the 28 × entries bytes from it are zero in the output |
| Redactor.EntryDataZeroed | debug_remover/main.cpp:159-166 | every byte of each entry's data range is zero in the output |
| Redactor.UncoveredUnchanged | debug_remover/main.cpp:144-166 | a byte that no fill covers keeps its input value |
| Redactor.EntryFillsInRange | debug_remover/src/pelib/DebugDirectory.cpp:41-46 | entries that passed the debug read's per-entry check end inside the file, so their fills never leave the buffer |
| Redactor.UnmappedDirectoryIsUndefined | debug_remover/main.cpp:150-156 | a directory offset of UINT32_MAX passes the null check, and the record fill then lies outside the buffer |
| Redactor.SlotIsDebugDirectoryEntry | debug_remover/main.cpp:138-144 | when the first "PE" is at e_lfanew, the slot fill covers data directory 6: signature + 168 for a 32-bit header, + 184 for a 64-bit one |
| Redactor.DirectoryOffset | debug_remover/main.cpp:148 | the debug directory's file offset is getFileOffsetFromRva of data directory 6's RVA |
| Redactor.EntryFill | debug_remover/main.cpp:162-165 | entry i's fill starts at its PointerToRawData and covers SizeOfData bytes |
| Redactor.RedactionFills | debug_remover/main.cpp:138-166 | the fills of a run past the null-offset check, in main's order: the slot fill when "PE" is found, the record fill, then one fill per entry |
| Redactor.Covered | debug_remover/main.cpp:144-166 | a byte is covered when it lies in the range of one of the run's fills |
| Redactor.FillPhase | debug_remover/main.cpp:138-166 | the fill phase: the slot fill, then the null-offset failure, then the record and entry fills; a fill outside the buffer stands for the undefined behaviour and ends the phase |
| Redactor.Redaction | debug_remover/main.cpp:69-169 | the whole run: each check, in its fixed order, ends the run with its message; otherwise the fill phase runs and the filled buffer is written to the output name |
| Redactor.FailsCheck | debug_remover/main.cpp:71-154 | check k of the failure ladder fails: too few arguments, missing file, empty file, empty data, a load error, no debug directory, no entries, or a null directory offset |
| Paths.LastIndexOf | debug_remover/main.cpp:81 | the result is the last index holding the character, or -1 when it does not occur |
| Paths.FileName | debug_remover/main.cpp:81 | the file-name part of a path holds no '/' |
| Paths.StripTrailingSlashes | debug_remover/main.cpp:81 | the result is a prefix of the input that does not end in '/' |
| Paths.ExtensionDot | debug_remover/main.cpp:81 | the extension's dot, when at index 1 or later, is a '.' of the file name |
| Paths.StemExtension | debug_remover/main.cpp:81 | stem followed by extension is the file name, and a nonempty extension starts with '.' |
| Paths.InputSplits | debug_remover/main.cpp:81 | a path is its directory part followed by its file name |
| Paths.DirectoryPart | debug_remover/main.cpp:81 | the directory part is a prefix of the path |
| Paths.OutputNameBesideInput | debug_remover/main.cpp:81 | for a path with a directory, the output name is that directory + stem + "_stripped" + extension |
| Paths.BareOutputName | debug_remover/main.cpp:81 | for a path with no '/', the output name is stem + "_stripped" + extension |
| Paths.DirectoryIsParentSlash | debug_remover/main.cpp:81 | the parent path is nonempty, does not end in '/', and with '/' appended is the directory part |
| Paths.JoinDirectory | debug_remover/main.cpp:81 | appending a name to a parent not ending in '/' inserts one separator |
| Paths.ParentOfDirectory | debug_remover/main.cpp:81 | the parent path of such a path is everything before its last '/' |
| Paths.ParentPath | debug_remover/main.cpp:81 | parent_path(): the text before the last '/' with its trailing separators removed, or the root when only the root is left |
| Paths.Stem | debug_remover/main.cpp:81 | stem(): the file name up to its extension; ".", ".." and names that start with their only dot are their own stem |
| Paths.Extension | debug_remover/main.cpp:81 | extension(): the file name from the extension's dot to its end, or empty |
| Paths.Join | debug_remover/main.cpp:81 | operator/ with a relative right side: a separator is inserted unless the left side is empty or already ends in one |
| Paths.OutputName | debug_remover/main.cpp:81 | the output path: parent_path() / stem(), then "_stripped", then extension() |
| ImageLoader.ImageBitability | debug_remover/src/pelib/ImageLoader.cpp:424-431 | the bitability is 64 exactly for the 64-bit optional-header magic, and 32 otherwise |
| ImageLoader.OrdinalMask | debug_remover/include/retdec/pelib/ImageLoader.h:220-223 | the ordinal mask is the top bit of a pointer: 2^(bitability - 1) |
| ImageLoader.DataDirRva | debug_remover/include/retdec/pelib/ImageLoader.h:325-329 | a directory index at or past NumberOfRvaAndSizes reads as RVA 0 |
| ImageLoader.DataDirSize | debug_remover/include/retdec/pelib/ImageLoader.h:331-335 | a directory index at or past NumberOfRvaAndSizes reads as size 0 |
| ImageLoader.SetDataDirectory | debug_remover/src/pelib/ImageLoader.cpp:673-689 | an index past the table changes nothing; otherwise NumberOfRvaAndSizes grows to cover the index, and only the directory table and that count change |
| ImageLoader.DataDirectoryRoundTrip | debug_remover/src/pelib/ImageLoader.cpp:673-689 | reading a directory back after setting it gives the new RVA and size, except where an argument is UINT32_MAX; other present directories keep their values |
| ImageLoader.GetSectionHeader | debug_remover/include/retdec/pelib/ImageLoader.h:205-213 | a header is returned exactly for an index below the section count, and it is that section's header |
| ImageLoader.GetFieldOffset | debug_remover/src/pelib/ImageLoader.cpp:522-588 | a member the switch does not list yields UINT32_MAX |
| ImageLoader.DirectorySlotLayout | debug_remover/src/pelib/ImageLoader.cpp:536-584 | each directory slot lies 8 × its index past the table start, just after NumberOfRvaAndSizes, inside the optional header; the Debug slot is at 168 (32-bit) or 184 (64-bit) |
| ImageLoader.VaToRva | debug_remover/src/pelib/ImageLoader.cpp:433-439 | the result is VA - ImageBase exactly when ImageBase <= VA < ImageBase + SizeOfImage, and UINT32_MAX otherwise |
| ImageLoader.VaToRvaRoundTrip | debug_remover/src/pelib/ImageLoader.cpp:433-439 | an RVA inside the image, turned into a VA, converts back to itself |
| ImageLoader.IsValidImageBlock | debug_remover/src/pelib/ImageLoader.cpp:2989-2998 | a block is valid exactly when rva < SizeOfImage, size < SizeOfImage and rva + size <= SizeOfImage without wrap-around |
| ImageLoader.RealPointerToRawData | debug_remover/src/pelib/ImageLoader.cpp:452-458 | PointerToRawData is kept for section alignment below 0x1000, and is otherwise rounded down to 0x200 |
| ImageLoader.GetFileOffsetFromRva | debug_remover/src/pelib/ImageLoader.cpp:441-476 | with no sections the RVA maps to itself; the first section with raw data whose range holds the RVA maps it to realPtr + (rva - VirtualAddress); an RVA in no section maps to itself below SizeOfHeaders and to UINT32_MAX otherwise |
| ImageLoader.HeaderRvaTranslation | debug_remover/src/pelib/ImageLoader.cpp:470-471 | an RVA below every section maps to itself below SizeOfHeaders, else to UINT32_MAX |
| ImageLoader.FileOffsetInsideRawData | debug_remover/src/pelib/ImageLoader.cpp:461-466 | for small section alignment, an RVA mapped by a section whose mapped size fits its raw data lands inside that section's raw data |
| ImageLoader.GetValidOffsetFromRva | debug_remover/src/pelib/ImageLoader.cpp:479-520 | with no sections the result is UINT32_MAX; the first section whose disk-backed part holds the RVA and whose offset lies in the file maps it; otherwise the header rule applies |
| ImageLoader.GetSectionIndexByRva | debug_remover/src/pelib/ImageLoader.cpp:631-643 | the result is the first section whose aligned virtual range holds the RVA, or SIZE_MAX exactly when none does |
| ImageLoader.GetImageProtection | debug_remover/src/pelib/ImageLoader.cpp:612-629 | the protection is executable iff MEM_EXECUTE, writable iff MEM_WRITE, copy-on-write iff writable and not shared, and no-access iff neither read nor write |
| ImageLoader.ReadImage | debug_remover/src/pelib/ImageLoader.cpp:1189-1236 | a read returns at most n bytes: the image slice from rva, cut at the image end, and nothing when rva is past the end or rva + n wraps |
| ImageLoader.ReadImageWord | debug_remover/src/pelib/ImageLoader.cpp:1189-1236 | a 4-byte read is complete exactly when it lies in the image, and then decodes the image's word |
| ImageLoader.ReadString | debug_remover/src/pelib/ImageLoader.cpp:194-281 | the string read at an RVA is at most the maximum length |
| ImageLoader.ReadStringStops | debug_remover/src/pelib/ImageLoader.cpp:194-281 | the string holds no NUL, is the image bytes at the RVA, and stops at the maximum length, the image end or a NUL |
| ImageLoader.ReadStringUpTo | debug_remover/src/pelib/ImageLoader.cpp:194-281 | a string read with a caller's limit is at most that limit |
| ImageLoader.ReadStringUpToStops | debug_remover/src/pelib/ImageLoader.cpp:194-281 | the string holds no NUL, is the image bytes at the RVA, and stops at the limit, the image end or a NUL |
| ImageLoader.PointerSize | debug_remover/src/pelib/ImageLoader.cpp:314-317 | the pointer size is 8 for a 64-bit image and 4 otherwise |
| ImageLoader.ReadPointer | debug_remover/src/pelib/ImageLoader.cpp:283-312 | a pointer is read exactly when all pointer-size bytes are available, and a 32-bit read is widened |
| ImageLoader.ImageView | debug_remover/src/pelib/ImageLoader.cpp:1162-1225 | the page-mapped image has SizeOfImageAligned bytes: a missing page and a zero page read as zeros |
| ImageLoader.PageChunk | debug_remover/src/pelib/ImageLoader.cpp:1209-1225 | a chunk within one page is that page's bytes, or zeros past the page list |
| ImageLoader.PageOffsetMask | debug_remover/src/pelib/ImageLoader.cpp:1209 | rva & (PAGE_SIZE - 1) is rva mod 4096 |
| ImageLoader.ReadWriteImage | debug_remover/src/pelib/ImageLoader.cpp:1189-1236 | the page loop returns exactly `ReadImage` of the page-mapped image, and bytesRead is its length |
| ImageLoader.ReadPageChunk | debug_remover/src/pelib/ImageLoader.cpp:1209-1230 | one pass copies a nonempty chunk that ends in the current page and is the image's bytes there |
| ImageLoader.FileSpan | debug_remover/src/pelib/ImageLoader.cpp:1244-1250 | corrected clamp: 0 past the data; otherwise at most the request and ending inside the data, either the whole request or up to the data end |
| ImageLoader.FileSpanAsWritten | debug_remover/src/pelib/ImageLoader.cpp:1244-1250 | the clamp as written, with fileOffset + bytesToRead wrapping; it agrees with `FileSpan` when the sum does not wrap |
| ImageLoader.FileSpanWrapOverruns | debug_remover/src/pelib/ImageLoader.cpp:1249-1250 | offset 10, count 0xFFFFFFFF and 100 data bytes: as written nothing is clamped and the copy runs past the data; the corrected clamp gives 90 |
| ImageLoader.Overwrite | debug_remover/src/pelib/ImageLoader.cpp:1258 | a write keeps the length, puts the part at its offset and keeps every other byte |
| ImageLoader.AccessFile | debug_remover/src/pelib/ImageLoader.cpp:1246-1262 | the count is the corrected clamp; a read copies that many file bytes into the buffer and changes nothing else; a write puts the buffer's first bytes into the data |
| ImageLoader.EncodeDirectories | debug_remover/src/pelib/ImageLoader.cpp:2350-2352 | the directory table occupies 8 bytes per entry |
| ImageLoader.DecodeDirectories | debug_remover/src/pelib/ImageLoader.cpp:2350-2352 | decoding yields one directory per 8 bytes |
| ImageLoader.DecodeEncodeDirectories | debug_remover/src/pelib/ImageLoader.cpp:2350-2352 | decoding an encoded directory table gives it back |
| ImageLoader.AvailableDirectoryBytes | debug_remover/src/pelib/ImageLoader.cpp:2339-2348 | the bytes copied are at most the 16-entry table, cut at the end of the available header |
| ImageLoader.PatchDirectoriesExtremes | debug_remover/src/pelib/ImageLoader.cpp:2350-2352 | copying no bytes keeps the table, and copying the whole table replaces it |
| ImageLoader.MaxVirtualEnd | debug_remover/src/pelib/ImageLoader.cpp:723-732 | the largest section virtual end, starting from SizeOfHeaders: at least every end, and equal to one of them or the start |
| ImageLoader.MaxRawEnd | debug_remover/src/pelib/ImageLoader.cpp:723-732 | the largest section raw end, starting from SizeOfHeaders: at least every end, and equal to one of them or the start |
| ImageLoader.NewSectionAfterAll | debug_remover/src/pelib/ImageLoader.cpp:719-736 | for a power-of-two alignment without wrap-around, the new RVA is aligned, past the headers and past every section |
| ImageLoader.ShiftSection | debug_remover/src/pelib/ImageLoader.cpp:844-850 | a later section moves down by the removed section's sizes, and its sizes and other fields stay |
| ImageLoader.ShiftSections | debug_remover/src/pelib/ImageLoader.cpp:844-850 | every later section is shifted, in order |
| ImageLoader.DosHeaderError | debug_remover/src/pelib/ImageLoader.cpp:2288-2293 | no error exactly when e_lfanew is 4-aligned and within the file |
| ImageLoader.RawStringWindow | debug_remover/src/pelib/ImageLoader.cpp:357-376 | the candidate string is at most the maximum length and ends inside the file data |
| ImageLoader.ReadStringRaw | debug_remover/src/pelib/ImageLoader.cpp:347-398 | past the data nothing is read; a string that hits the limit without NUL is refused when it must not be too long; a non-printable one is cleared when it must be printable; otherwise the bytes before the first NUL within the limit |
| ImageLoader.Loader.SetLoaderError | debug_remover/src/pelib/ImageLoader.cpp:906-914 | the first recorded error is kept, and the result is always ERROR_NONE |
| ImageLoader.Loader.VerifyDosHeader | debug_remover/src/pelib/ImageLoader.cpp:2282-2294 | a bad magic fails with ERROR_INVALID_FILE and records nothing; otherwise an unaligned or out-of-file e_lfanew is recorded, first error winning, and the result is ERROR_NONE |
| ImageLoader.Loader.VerifyDosHeaderInFile | debug_remover/src/pelib/ImageLoader.cpp:2296-2319 | a file too short for the DOS header fails; otherwise the header is verified, and the read fails exactly when the recorded error is E_LFANEW_OUT_OF_FILE |
| ImageLoader.Loader.RemoveSection | debug_remover/src/pelib/ImageLoader.cpp:835-854 | an index past the table fails with ERROR_ENTRY_NOT_FOUND and changes nothing; otherwise the section is removed and every later one is shifted down by its sizes |
| ImageLoader.Loader.CalcNewSectionAddresses | debug_remover/src/pelib/ImageLoader.cpp:719-736 | the new RVA and raw offset are the largest virtual and raw ends, aligned to SectionAlignment and FileAlignment |
| ImageLoader.Loader.ReadWriteImageFile | debug_remover/src/pelib/ImageLoader.cpp:1238-1263 | the count is the corrected clamp at the translated offset; a read fills the buffer from the file data, a write puts the buffer into it, and nothing else changes |
| ImageLoader.Loader.CopyDataDirectories | debug_remover/src/pelib/ImageLoader.cpp:2333-2354 | the count returned is NumberOfRvaAndSizes capped at 16, and the directory table takes the available bytes of the file |
| ImageLoader.OptionalHeaderSize | debug_remover/src/pelib/ImageLoader.cpp:529-530 | the optional header's size: the 64-bit layout for a 64-bit image, the 32-bit one otherwise |
| ImageLoader.DataDirectoryOffset | debug_remover/src/pelib/ImageLoader.cpp:532-534 | the data directory's offset inside the optional header, by bitability |
| ImageLoader.MappedSize | debug_remover/src/pelib/ImageLoader.cpp:454 | the span getFileOffsetFromRva gives a section: VirtualSize, or SizeOfRawData when VirtualSize is 0 |
| ImageLoader.MapsRva | debug_remover/src/pelib/ImageLoader.cpp:449-461 | a section with raw data whose virtual range, computed in 32 bits, holds the RVA |
| ImageLoader.BackedSize | debug_remover/src/pelib/ImageLoader.cpp:479-520 | the part of a section getValidOffsetFromRva trusts: the smaller of VirtualSize and SizeOfRawData |
| ImageLoader.BacksRva | debug_remover/src/pelib/ImageLoader.cpp:479-520 | a section whose disk-backed part holds the RVA and whose translated offset lies inside the file |
| ImageLoader.CoversRva | debug_remover/src/pelib/ImageLoader.cpp:637 | a section's virtual range, its end aligned to SectionAlignment, holds the RVA |
| ImageLoader.HasFlag | debug_remover/src/pelib/ImageLoader.cpp:612-629 | a single-bit test of a section's Characteristics |
| ImageLoader.ImageByte | debug_remover/src/pelib/ImageLoader.cpp:1162-1225 | the byte at an RVA of the page-mapped image, one page per 4 KiB; positions past the last page read as zero |
| ImageLoader.CopyFromFile | debug_remover/src/pelib/ImageLoader.cpp:1256 | the read's memcpy: the head of the buffer holds the n file bytes from the offset, and the rest of the buffer is unchanged |
| ImageLoader.PatchDirectories | debug_remover/src/pelib/ImageLoader.cpp:2350-2352 | the sixteen directories with their first bytes replaced by the bytes available in the file |
| ImageLoader.VirtualEnd | debug_remover/src/pelib/ImageLoader.cpp:723-732 | a section's virtual end: VirtualAddress + VirtualSize in 32 bits |
| ImageLoader.RawEnd | debug_remover/src/pelib/ImageLoader.cpp:723-732 | a section's raw end: PointerToRawData + SizeOfRawData in 32 bits |
| ImageLoader.DosHeaderAt | debug_remover/src/pelib/ImageLoader.cpp:2310 | the DOS header read from the file: e_magic at offset 0, e_lfanew at offset 0x3C |
| FilePages.Zeros | debug_remover/include/retdec/pelib/ImageLoader.h:101-112 | a run of n zero bytes |
| FilePages.Resized | debug_remover/include/retdec/pelib/ImageLoader.h:122-135 | resizing a page buffer gives 4096 bytes: the old bytes, then zeros |
| FilePages.PageByte | debug_remover/src/pelib/ImageLoader.cpp:1162-1177 | every byte of a zero page (empty buffer) reads as 0 |
| FilePages.ReadFromPage | debug_remover/src/pelib/ImageLoader.cpp:1162-1177 | reading n bytes of a page gives the page's bytes from the offset, or zeros for a zero page |
| FilePages.FilePage.constructor | debug_remover/include/retdec/pelib/ImageLoader.h:94-98 | a new page is empty, invalid and not a zero page |
| FilePages.FilePage.WriteToPage | debug_remover/include/retdec/pelib/ImageLoader.h:122-135 | an offset of 4096 or more changes nothing; otherwise the buffer becomes 4096 bytes, [offset, min(offset + length, 4096)) holds the data, and every other byte is the old byte or zero |
| FilePages.FilePage.SetValidPage | debug_remover/include/retdec/pelib/ImageLoader.h:101-112 | the buffer is the first length bytes of the data padded with zeros to 4096, and the page is valid and not a zero page |
| FilePages.FilePage.SetZeroPage | debug_remover/include/retdec/pelib/ImageLoader.h:115-120 | the buffer is emptied and the page is valid and a zero page |
| FilePages.ValidPageContents | debug_remover/include/retdec/pelib/ImageLoader.h:101-112 | a page set valid reads as the data below length and as 0 above it |
| DebugDirectories.EncodeDebugRecord | debug_remover/src/pelib/DebugDirectory.cpp:108-118 | one record is written as 28 bytes |
| DebugDirectories.DecodeEncodeDebugRecord | debug_remover/src/pelib/DebugDirectory.cpp:108-118 | decoding the 28 bytes that rebuild writes for a record gives the record back |
| DebugDirectories.Rebuild | debug_remover/src/pelib/DebugDirectory.cpp:104-119 | the rebuilt directory is 28 bytes per entry |
| DebugDirectories.RebuildDecodes | debug_remover/src/pelib/DebugDirectory.cpp:104-119 | the i-th 28-byte record of the rebuilt directory decodes to entry i |
| DebugDirectories.EntriesAt | debug_remover/src/pelib/DebugDirectory.cpp:72-89 | the record loop reads at most size / 28 records |
| DebugDirectories.EntriesUnfold | debug_remover/src/pelib/DebugDirectory.cpp:81-89 | a short read ends the list; a full read adds the decoded record and goes on 28 bytes later |
| DebugDirectories.ReadEntry | debug_remover/src/pelib/DebugDirectory.cpp:83-88 | one pass: no record ends the list, a record is its head and the rest is read 28 bytes later |
| DebugDirectories.FirstEntryAt | debug_remover/src/pelib/DebugDirectory.cpp:83-84 | a record inside the image is read in full and decodes to the image bytes at the RVA |
| DebugDirectories.EntriesAtContiguous | debug_remover/src/pelib/DebugDirectory.cpp:72-89 | when all records lie in the image, exactly size / 28 are read, the i-th from rva + 28 × i |
| DebugDirectories.DirectoryRange | debug_remover/src/pelib/DebugDirectory.cpp:91-97 | corrected range: from the directory's first byte to its last, rva + 28 × count - 1 |
| DebugDirectories.DirectoryRangeAsWrittenMisses | debug_remover/src/pelib/DebugDirectory.cpp:93-96 | one record at 0x1000: as written the range is [0x101C, 0x1037], past the directory; the corrected range is [0x1000, 0x101B] |
| DebugDirectories.DataRange | debug_remover/src/pelib/DebugDirectory.cpp:58-65 | an entry's data range is [AddressOfRawData, AddressOfRawData + SizeOfData - 1] |
| DebugDirectories.DataRanges | debug_remover/src/pelib/DebugDirectory.cpp:58-65 | there are at most as many data ranges as entries |
| DebugDirectories.DataRangesCount | debug_remover/src/pelib/DebugDirectory.cpp:58-65 | one range is recorded for each entry with SizeOfData > 0, and no others |
| DebugDirectories.EntryCheckMeaning | debug_remover/src/pelib/DebugDirectory.cpp:41-46 | the 32-bit check passes exactly when PointerToRawData + SizeOfData does not wrap and lies below the file size |
| DebugDirectories.AttachData | debug_remover/src/pelib/DebugDirectory.cpp:39-56 | each entry keeps its record and takes its data bytes from the file |
| DebugDirectories.AttachOne | debug_remover/src/pelib/DebugDirectory.cpp:50-52 | an entry's data is the SizeOfData file bytes at PointerToRawData |
| DebugDirectories.FirstBadEntry | debug_remover/src/pelib/DebugDirectory.cpp:39-46 | the index of the first record failing the check, or the count when all pass |
| DebugDirectories.CheckEntries | debug_remover/src/pelib/DebugDirectory.cpp:39-66 | the loop stops at the first failing record, notes the data ranges before it, and with no failure attaches every record's data |
| DebugDirectories.DebugDirectory.ReadEntries | debug_remover/src/pelib/DebugDirectory.cpp:72-98 | the records read are `EntriesAt` for size / 28, and a directory range is noted exactly when one was read; the recorded directory range is the corrected one, see Findings |
| DebugDirectories.DebugDirectory.Read | debug_remover/src/pelib/DebugDirectory.cpp:23-70 | a directory that wraps or passes SizeOfImage fails with ERROR_INVALID_FILE and changes nothing; a failing entry check fails, keeps the old entries and keeps the ranges noted so far; otherwise the entries are replaced; the recorded directory range is the corrected one, see Findings |
| DebugDirectories.DebugDirectory.Size | debug_remover/src/pelib/DebugDirectory.cpp:124-127 | size() is the length of the rebuilt directory, 28 per entry, when 28 × count fits in 32 bits |
| DebugDirectories.DebugDirectory.CalcNumberOfEntries | debug_remover/src/pelib/DebugDirectory.cpp:168-171 | the entry count is the number of stored entries, when it fits in 32 bits |
| DebugDirectories.DebugDirectory.AddEntry | debug_remover/src/pelib/DebugDirectory.cpp:177-181 | one entry is appended |
| DebugDirectories.DebugDirectory.RemoveEntry | debug_remover/src/pelib/DebugDirectory.cpp:188-191 | exactly the i-th entry is removed |
| DebugDirectories.DebugDirectory.GetPointerToRawData | debug_remover/src/pelib/DebugDirectory.cpp:276-279 | entry i's PointerToRawData; an index past the list is undefined behaviour in the source and is excluded |
| DebugDirectories.DebugDirectory.GetSizeOfData | debug_remover/src/pelib/DebugDirectory.cpp:254-257 | entry i's SizeOfData; an index past the list is undefined behaviour in the source and is excluded |
| DebugDirectories.ReadEntriesInFile | debug_remover/src/pelib/DebugDirectory.cpp:41-52 | after a successful read each entry ends inside the file and holds the file bytes of its range |
| DebugDirectories.RemoveEntryShifts | debug_remover/src/pelib/DebugDirectory.cpp:188-191 | after removal, entries before i stay and entries after it move down by one, in order |
| DebugDirectories.DecodeDebugRecord | debug_remover/src/pelib/DebugDirectory.cpp:83-88 | the IMAGE_DEBUG_DIRECTORY packed in the 28 little-endian bytes at a position |
| DebugDirectories.DirectoryOutOfImage | debug_remover/src/pelib/DebugDirectory.cpp:30 | read's directory check: rva + size, computed without wrap-around, lies beyond SizeOfImage |
| DebugDirectories.DirectoryRecords | debug_remover/src/pelib/DebugDirectory.cpp:72-89 | the records the array read enumerates from the directory's RVA |
| DebugDirectories.DirectoryRanges | debug_remover/src/pelib/DebugDirectory.cpp:91-97 | the occupied ranges read adds: one for the record array when something was read; the recorded directory range is the corrected one, see Findings |
| DebugDirectories.DirectoryRangeAsWritten | debug_remover/src/pelib/DebugDirectory.cpp:93-96 | the recorded range as written: it starts from the RVA as the loop leaves it, past the records; corrected, see Findings |
| DebugDirectories.EntryCheckPasses | debug_remover/src/pelib/DebugDirectory.cpp:41-46 | the per-entry check: PointerToRawData + SizeOfData must not wrap, and both the pointer and the sum must lie before the end of the file |
| DebugDirectories.EntryDataInFile | debug_remover/src/pelib/DebugDirectory.cpp:41-46 | an entry's data ends strictly before the file does, with no 32-bit wrap |
| Alignment.AlignToSizeNoWrap | debug_remover/src/pelib/PeLibAux.cpp:128-131 | without wrap-around, AlignToSize is (n + a - 1) masked with the complement of a - 1 |
| Alignment.AlignToSizeMasks | debug_remover/src/pelib/PeLibAux.cpp:128-131 | for a = 2^k, the mask clears the low k bits: the result is (n + a - 1) minus its remainder mod a |
| Alignment.AlignToSizeRoundsUp | debug_remover/src/pelib/PeLibAux.cpp:122-131 | for a power-of-two alignment without wrap-around, AlignToSize is the least multiple of a that is at least n and agrees with alignOffset |
| LoaderErrors.ErrorString | debug_remover/src/pelib/PeLibAux.cpp:172-186 | an index inside the table yields that row's identifier string; any other index yields the missing-string text |
| LoaderErrors.LoadableAnyway | debug_remover/src/pelib/PeLibAux.cpp:188-202 | an index inside the table yields that row's loadable-anyway flag; any other index yields false |
| LoaderErrors.LoadableAnywayExactly | debug_remover/src/pelib/PeLibAux.cpp:26-95 | the flag is set exactly for the codes from FILE_IS_CUT_LOADABLE through RELOC_ENTRY_BAD_TYPE |
| LoaderErrors.KeepFirst | debug_remover/src/pelib/ImageLoader.cpp:906-914 | a recorded error is kept; with none recorded, the reported one is taken |
| LoaderErrors.RecordAllKeepsFirst | debug_remover/src/pelib/ImageLoader.cpp:906-914 | reporting a sequence of errors one by one keeps the current error, or else the first nonzero report |
| LoaderErrors.IdentifierColumn | debug_remover/src/pelib/PeLibAux.cpp:26-95 | the identifier column of the loader-error table |
| LoaderErrors.LoadableColumn | debug_remover/src/pelib/PeLibAux.cpp:26-95 | the loadable-anyway column of the loader-error table |
| LoaderErrors.FirstError | debug_remover/src/pelib/ImageLoader.cpp:906-914 | the first real error in a sequence of reports, if any |
| LoaderErrors.RecordAll | debug_remover/src/pelib/ImageLoader.cpp:906-914 | the error left after reporting errors one after another through setLoaderError |
| PeAux.RoundUp | debug_remover/src/pelib/PeLibAux.cpp:122-126 | the reference round-up is a multiple of a in [x, x + a) |
| PeAux.RoundUpIsLeast | debug_remover/src/pelib/PeLibAux.cpp:122-126 | every multiple of a that is at least x is at least the round-up |
| PeAux.AlignOffset | debug_remover/src/pelib/PeLibAux.cpp:122-126 | alignOffset is 0 for alignment 0, and otherwise the least multiple of the alignment at or above x, taken mod 2^32 |
| PeAux.AlignToSizeZero | debug_remover/src/pelib/PeLibAux.cpp:122-131 | with alignment 0 both AlignToSize and alignOffset give 0 |
| PeAux.BytesToPages | debug_remover/src/pelib/PeLibAux.cpp:133-136 | the page count is ceil(n / 4096): it covers n and one page fewer does not |
| PeAux.ToUpper | debug_remover/src/pelib/PeLibAux.cpp:282-283 | a lower-case ASCII letter maps to upper case and every other byte to itself |
| PeAux.Upper | debug_remover/src/pelib/PeLibAux.cpp:273-283 | upper-casing keeps the length and maps each byte |
| PeAux.IsEqualNcPointwise | debug_remover/src/pelib/PeLibAux.cpp:271-286 | isEqualNc holds exactly when the lengths agree and every pair of bytes agrees after upper-casing |
| PeAux.IsEqualNcEquivalence | debug_remover/src/pelib/PeLibAux.cpp:271-286 | isEqualNc is reflexive, symmetric and transitive, and a string equals its upper-cased form |
| PeAux.LexLessStrictTotal | debug_remover/src/pelib/PeLibAux.cpp:315 | string comparison is irreflexive, asymmetric, transitive and total on distinct strings |
| PeAux.ResDirEntryOrder | debug_remover/src/pelib/PeLibAux.cpp:311-329 | string-named entries precede ID entries, names compare as strings, IDs by value, and the order is a strict order |
| PeAux.ShortName | debug_remover/include/retdec/pelib/PeLibAux.h:816-825 | the fixed-length name is 8 bytes |
| PeAux.SetName | debug_remover/include/retdec/pelib/PeLibAux.h:816-829 | the 8-byte Name holds the new name's bytes before its first NUL, zero after, the string name is the C string, and nothing else changes |
| PeAux.SetVirtualRange | debug_remover/include/retdec/pelib/PeLibAux.h:836-842 | each of VirtualAddress and VirtualSize is replaced unless its argument is UINT32_MAX, and nothing else changes |
| PeAux.SetRawDataRange | debug_remover/include/retdec/pelib/PeLibAux.h:844-850 | each of PointerToRawData and SizeOfRawData is replaced unless its argument is UINT32_MAX, and nothing else changes |
| PeAux.RangeSettersIdempotent | debug_remover/include/retdec/pelib/PeLibAux.h:836-850 | applying a range setter twice equals applying it once, and two UINT32_MAX arguments change nothing |
| PeAux.NtHeadersLoadedSize | debug_remover/include/retdec/pelib/PeLibAux.h:765-774 | loadedSize is size() - 4 exactly when the last directory is incomplete and there is a directory, else size() |
| PeAux.NtHeadersSizeValue | debug_remover/include/retdec/pelib/PeLibAux.h:757-774 | size() is 272 + 8 per directory, and loadedSize is 4 less when a directory exists |
| PeAux.ImportEntrySize | debug_remover/include/retdec/pelib/PeLibAux.h:1095-1133 | the loop returns 20 + name length + 1 + the thunks' sizes + the pointer size, cut to 32 bits |
| PeAux.ThunksTotalValue | debug_remover/include/retdec/pelib/PeLibAux.h:1095-1098 | each thunk adds at least pointer size + 3 |
| PeAux.BoundDirectorySize | debug_remover/src/pelib/PeLibAux.cpp:388-397 | the loop returns the forwarders' sizes + 8 + name length + 1, cut to 32 bits |
| PeAux.BoundSizeLeaf | debug_remover/src/pelib/PeLibAux.cpp:388-397 | a module with no forwarders has size 9 + name length |
| PeAux.AlignToSize | debug_remover/src/pelib/PeLibAux.cpp:128-131 | AlignToSize: the mask-based round-up (n + (a - 1)) & ~(a - 1) on 32 bits |
| PeAux.IsPrintableChar | debug_remover/src/pelib/PeLibAux.cpp:204-209 | isprint in the C locale: space through tilde |
| PeAux.IsEqualNc | debug_remover/src/pelib/PeLibAux.cpp:271-286 | isEqualNc: the two strings are equal after both are upper-cased |
| PeAux.LexLess | debug_remover/src/pelib/PeLibAux.cpp:315 | std::string's operator<: lexicographic over the bytes taken as unsigned |
| PeAux.ResDirEntryLess | debug_remover/src/pelib/PeLibAux.cpp:311-329 | PELIB_IMG_RES_DIR_ENTRY::operator<: entries named by string first and ordered by name; entries with IDs ordered by ID |
| PeAux.NtHeadersSize | debug_remover/include/retdec/pelib/PeLibAux.h:757-774 | PELIB_IMAGE_NT_HEADERS_EX::size: the signature, file header, optional header and data directories |
| PeAux.ThunkSize | debug_remover/include/retdec/pelib/PeLibAux.h:1095-1133 | PELIB_THUNK_DATA::calculateSize: the pointer, the name, its NUL and the 2-byte hint |
| PeAux.ThunksTotal | debug_remover/include/retdec/pelib/PeLibAux.h:1095-1098 | the exact sum of the thunks' sizes |
| PeAux.BoundExactSize | debug_remover/src/pelib/PeLibAux.cpp:388-397 | the exact space a bound-import entry describes: its forwarders, its descriptor, its name and the NUL |
| Bytes.TopByteMask | debug_remover/src/pelib/IatDirectory.cpp:57 | the top-byte test of a 32-bit size is nonzero exactly for sizes of 2^24 and above |
| Relocations.EntryType | debug_remover/src/pelib/RelocationsDirectory.cpp:132 | the type of an entry is its top nibble, below 16 |
| Relocations.RelocationsOutOfImage | debug_remover/src/pelib/RelocationsDirectory.cpp:32 | the directory is out of the image exactly when it does not satisfy rva < SizeOfImage and rva + size <= SizeOfImage without wrap-around |
| Relocations.EntriesFrom | debug_remover/src/pelib/RelocationsDirectory.cpp:122-158 | the entry loop ends at or after its start, and stores at most the remaining entry count; a HIGHADJ entry is handled as corrected, see Findings |
| Relocations.EntriesStep | debug_remover/src/pelib/RelocationsDirectory.cpp:124-157 | one entry is stored, an unknown type adds a RELOC_ENTRY_BAD_TYPE report, and the loop goes on one slot later, or two after a HIGHADJ; a HIGHADJ entry is handled as corrected, see Findings |
| Relocations.EntryReportsAreBadTypes | debug_remover/src/pelib/RelocationsDirectory.cpp:132-157 | the entry loop reports RELOC_ENTRY_BAD_TYPE once per stored entry of unknown type, and nothing else |
| Relocations.EntriesAreSlots | debug_remover/src/pelib/RelocationsDirectory.cpp:122-158 | without HIGHADJ, the k-th stored entry is the k-th 16-bit slot, and the loop stops at the entry count or the data end |
| Relocations.BlocksWellFormed | debug_remover/src/pelib/RelocationsDirectory.cpp:90-163 | every stored block has VirtualAddress <= SizeOfImage, SizeOfBlock >= 8 and at most (SizeOfBlock - 8) / 2 entries; a bad VA or length report can only be the last report; a HIGHADJ entry is handled as corrected, see Findings |
| Relocations.ParseEntries | debug_remover/src/pelib/RelocationsDirectory.cpp:124-158 | the entry loop computes `EntriesFrom`; a HIGHADJ entry is handled as corrected, see Findings |
| Relocations.ParseBlock | debug_remover/src/pelib/RelocationsDirectory.cpp:92-162 | one header either ends the parse or stores its block, if any, and continues at a later position; a HIGHADJ entry is handled as corrected, see Findings |
| Relocations.ParseBlocks | debug_remover/src/pelib/RelocationsDirectory.cpp:77-164 | the block loop computes `Blocks` from an empty list; a HIGHADJ entry is handled as corrected, see Findings |
| Relocations.EntriesAsWritten | debug_remover/src/pelib/RelocationsDirectory.cpp:124-158 | the entry loop as written, advancing `data` and indexing by i: it ends at or after the data position |
| Relocations.EntriesAgree | debug_remover/src/pelib/RelocationsDirectory.cpp:124-158 | without HIGHADJ the as-written entry loop and the corrected one agree |
| Relocations.BlocksAgree | debug_remover/src/pelib/RelocationsDirectory.cpp:77-164 | without HIGHADJ the as-written block parse and the corrected one agree |
| Relocations.HighAdjLosesNextBlock | debug_remover/src/pelib/RelocationsDirectory.cpp:129-135 | on a 22-byte sample with one HIGHADJ entry, the parse as written stores the parameter slot as an entry and loses the second block |
| Relocations.HighAdjKeepsNextBlock | debug_remover/src/pelib/RelocationsDirectory.cpp:129-135 | on the same sample the corrected parse stores the HIGHADJ entry alone and reads the second block |
| Relocations.RelocationsDirectory.SetLoaderError | debug_remover/src/pelib/RelocationsDirectory.cpp:63-70 | the first error is kept, and the blocks stay |
| Relocations.RelocationsDirectory.ReadBlocks | debug_remover/src/pelib/RelocationsDirectory.cpp:77-164 | the stored blocks are replaced by the parse result, and the first report is recorded unless an error was already recorded; a HIGHADJ entry is handled as corrected, see Findings |
| Relocations.RelocationsDirectory.Read | debug_remover/src/pelib/RelocationsDirectory.cpp:24-53 | a directory out of the image or larger than the file records RELOCATIONS_OUT_OF_IMAGE and fails, keeping the blocks; a short image read fails; otherwise the directory is parsed and the result is ERROR_NONE; a HIGHADJ entry is handled as corrected, see Findings |
| Relocations.RelocationsDirectory.Size | debug_remover/src/pelib/RelocationsDirectory.cpp:166-176 | size() is 72 per block plus 2 per entry, cut to 32 bits |
| Relocations.RelocationsDirectory.CalcNumberOfRelocations | debug_remover/src/pelib/RelocationsDirectory.cpp:178-181 | the block count is the number of stored blocks, when it fits in 32 bits |
| Relocations.RelocationsDirectory.CalcNumberOfRelocationData | debug_remover/src/pelib/RelocationsDirectory.cpp:193-196 | the entry count of a block is its number of stored entries, when it fits in 32 bits |
| Relocations.RelocationsDirectory.SetVirtualAddress | debug_remover/src/pelib/RelocationsDirectory.cpp:203-206 | only that block's VirtualAddress changes, and reading it back gives the value |
| Relocations.RelocationsDirectory.SetSizeOfBlock | debug_remover/src/pelib/RelocationsDirectory.cpp:208-211 | only that block's SizeOfBlock changes, and reading it back gives the value |
| Relocations.RelocationsDirectory.SetRelocationData | debug_remover/src/pelib/RelocationsDirectory.cpp:72-75 | only that entry of that block changes, and reading it back gives the value |
| Relocations.RelocationsDirectory.AddRelocation | debug_remover/src/pelib/RelocationsDirectory.cpp:213-217 | one empty block is appended |
| Relocations.RelocationsDirectory.AddRelocationData | debug_remover/src/pelib/RelocationsDirectory.cpp:219-222 | one entry is appended to that block only |
| Relocations.RelocationsDirectory.RemoveRelocation | debug_remover/src/pelib/RelocationsDirectory.cpp:231-234 | exactly that block is removed |
| Relocations.RelocationsDirectory.RemoveRelocationData | debug_remover/src/pelib/RelocationsDirectory.cpp:236-239 | exactly that entry of that block is removed |
| Relocations.RelocationsDirectory.GetVirtualAddress | debug_remover/src/pelib/RelocationsDirectory.cpp:183-186 | block i's VirtualAddress; an index past the list is undefined behaviour in the source and is excluded |
| Relocations.RelocationsDirectory.GetSizeOfBlock | debug_remover/src/pelib/RelocationsDirectory.cpp:188-191 | block i's SizeOfBlock; an index past the list is undefined behaviour in the source and is excluded |
| Relocations.RelocationsDirectory.GetRelocationData | debug_remover/src/pelib/RelocationsDirectory.cpp:198-201 | entry j of block i; an index past either list is undefined behaviour in the source and is excluded |
| Relocations.KnownType | debug_remover/src/pelib/RelocationsDirectory.cpp:132-157 | the relocation types the parser accepts without a loader error |
| Relocations.Blocks | debug_remover/src/pelib/RelocationsDirectory.cpp:77-164 | the corrected parse from the header at p: a header is read only while it ends before the directory does; a page past the image or a block past the directory ends the parse; corrected, see Findings |
| Relocations.BlocksAsWritten | debug_remover/src/pelib/RelocationsDirectory.cpp:77-164 | the parse as written: a HIGHADJ entry's parameter slot is also stored as an entry, and the cursor ends two bytes past the block |
| Relocations.BadTypes | debug_remover/src/pelib/RelocationsDirectory.cpp:132-157 | the number of stored entries whose type the parser does not know |
| Relocations.NoHighAdj | debug_remover/src/pelib/RelocationsDirectory.cpp:129-135 | no stored entry is a HIGHADJ one |
| Relocations.WellFormedBlock | debug_remover/src/pelib/RelocationsDirectory.cpp:92-162 | a stored block's page lies inside the image and its size covers its header and its entries |
| Relocations.EntryCount | debug_remover/src/pelib/RelocationsDirectory.cpp:166-176 | all stored entries, over all blocks |
| Relocations.RelocationsSize | debug_remover/src/pelib/RelocationsDirectory.cpp:166-176 | size(): 72 bytes per block, the size PELIB_IMAGE_BASE_RELOCATION reports, and two per entry, in 32-bit arithmetic |
| Resources.RvaBits | debug_remover/src/pelib/ResourceDirectory.cpp:729 | masking with the RVA mask gives a value below 2^31, and leaves a value without the top bit unchanged |
| Resources.SetTopBit | debug_remover/src/pelib/ResourceDirectory.cpp:605 | setting the string/directory flag gives a value with the top bit set and the same low 31 bits |
| Resources.TopBitIsAnd | debug_remover/include/retdec/pelib/PeLibAux.h:170-171 | testing `x & 0x80000000` is the same as testing the top bit of x |
| Resources.RvaBitsIsAnd | debug_remover/include/retdec/pelib/PeLibAux.h:172 | the AND with 0x7FFFFFFF is exactly the low 31 bits |
| Resources.SetTopBitIsOr | debug_remover/include/retdec/pelib/PeLibAux.h:170 | the OR with 0x80000000 is exactly setting the top bit |
| Resources.ChildOrder | debug_remover/src/pelib/ResourceDirectory.cpp:116-134 | the child order is irreflexive, transitive, leaves two children unordered exactly when their keys are equal, and puts every named child before every unnamed one |
| Resources.NotLessTransitive | debug_remover/src/pelib/ResourceDirectory.cpp:116-134 | incomparability under the child order is transitive, so the order is a strict weak order |
| Resources.InsertChild | debug_remover/src/pelib/ResourceDirectory.cpp:524 | inserting into a sorted sequence keeps it sorted and adds exactly that child to the multiset |
| Resources.SortChildren | debug_remover/src/pelib/ResourceDirectory.cpp:524 | the sorted children are in order and a permutation of the input |
| Resources.SortKeepsSorted | debug_remover/src/pelib/ResourceDirectory.cpp:524 | sorting children already in order changes nothing |
| Resources.CountNamed | debug_remover/src/pelib/ResourceDirectory.cpp:525-529 | the number of named children is at most the number of children |
| Resources.CountNamedInsert | debug_remover/src/pelib/ResourceDirectory.cpp:525-529 | inserting a child raises the named count by one exactly when that child is named |
| Resources.CountNamedSort | debug_remover/src/pelib/ResourceDirectory.cpp:524-529 | sorting does not change the named count |
| Resources.NamedPrefix | debug_remover/src/pelib/ResourceDirectory.cpp:113-134 | in sorted children, child i is named exactly when i is below the named count |
| Resources.CountedHeaderAgrees | debug_remover/src/pelib/ResourceDirectory.cpp:525-530 | below 2^16 children, the counts written into the header are the numbers of named and ID children |
| Resources.MakeValidNodeCounts | debug_remover/src/pelib/ResourceDirectory.cpp:522-531 | below 2^16 children, makeValid leaves a header whose counts agree with the children |
| Resources.MakeValidNodeIsValid | debug_remover/src/pelib/ResourceDirectory.cpp:522-531 | makeValid on a node gives sorted children, a permutation of the old ones, named ones first, the header unchanged except for its two counts, and counts that agree below 2^16 children |
| Resources.MakeValidLeafIsValid | debug_remover/src/pelib/ResourceDirectory.cpp:395-398 | makeValid on a leaf changes only Size, which becomes the data length when that fits in 32 bits |
| Resources.MakeValidNodeIdempotent | debug_remover/src/pelib/ResourceDirectory.cpp:522-531 | makeValid on a node, applied twice, gives the same node as applying it once |
| Resources.MakeValidIdempotent | debug_remover/src/pelib/ResourceDirectory.cpp:1089-1092 | makeValid applied twice to any element is makeValid applied once |
| Resources.FindId | debug_remover/src/pelib/ResourceDirectory.cpp:89-92 | the position found is the first child whose ID equals the argument, or the length when none does |
| Resources.FindName | debug_remover/src/pelib/ResourceDirectory.cpp:99-102 | the position found is the first child whose name equals the argument, or the length when none does |
| Resources.CountNamedRemove | debug_remover/src/pelib/ResourceDirectory.cpp:1234-1239 | erasing child k lowers the named count by one exactly when child k was named |
| Resources.RemoveChildAsWrittenMiscounts | debug_remover/src/pelib/ResourceDirectory.cpp:1234-1239 | removing an ID type as written, from a root with one named and two ID types, leaves a header declaring three entries for two children |
| Resources.RemoveChildKeepsCounts | debug_remover/src/pelib/ResourceDirectory.cpp:1234-1239 | the corrected removal erases exactly child k, and a header that agreed with the children still agrees afterwards |
| Resources.RecalculateLayout | debug_remover/src/pelib/ResourceDirectory.cpp:388-393 | recalculate advances the offset by the element's layout size modulo 2^32; a leaf's data offset becomes offset + 16 + newRva; a node keeps its header and lays each child out in order after the entries |
| Resources.RecalculateNodeLayout | debug_remover/src/pelib/ResourceDirectory.cpp:595-622 | recalculate on a node advances the offset by its layout size and places every child at its position in the contiguous layout |
| Resources.RecalculateElement | debug_remover/src/pelib/ResourceDirectory.cpp:388-393 | the step-by-step recalculate of one element gives the layout the specification function describes |
| Resources.RecalculateNode | debug_remover/src/pelib/ResourceDirectory.cpp:595-622 | the loop over a node's children gives the layout the specification function describes |
| Resources.RecalculateChild | debug_remover/src/pelib/ResourceDirectory.cpp:603-620 | one turn of the loop places the child's name and element at the given offset and returns where its element ends |
| Resources.ReadPadded | debug_remover/src/pelib/ImageLoader.cpp:163-178 | reading n bytes into a zeroed structure gives n bytes, exactly the image's bytes when they all lie in the image |
| Resources.HeaderRoundTrip | debug_remover/src/pelib/ResourceDirectory.cpp:649 | decoding the 16 bytes of a directory header gives that header back |
| Resources.ReadStringRcChars | debug_remover/src/pelib/ImageLoader.cpp:319-345 | the name read has at most the declared number of characters, all of them when they lie in the image, each the low byte of its UTF-16 unit |
| Resources.LeafRead | debug_remover/src/pelib/ResourceDirectory.cpp:311-356 | reading a leaf fails with ERROR_INVALID_FILE exactly when its RVA is past SizeOfImage, is skipped exactly when its entry is empty, and keeps data only when the data range lies in the image, in which case the data are the image's bytes |
| Resources.LeafEntryRead | debug_remover/src/pelib/ResourceDirectory.cpp:328-355 | after the data entry: skipped exactly for an empty entry, otherwise ERROR_NONE, with data only when the range lies in the image |
| Resources.LeafData | debug_remover/src/pelib/ResourceDirectory.cpp:346-347 | the data read has entry.Size bytes, exactly the bytes of the image when the range lies inside it |
| Resources.NodeRead | debug_remover/src/pelib/ResourceDirectory.cpp:632-785 | reading a node keeps the earlier children, adds at most 0x8000 more, records only offsets it could reach, returns only ERROR_NONE, ERROR_INVALID_FILE or ERROR_SKIP_RESOURCE, and records its own offset whenever it adds a child |
| Resources.NodeEntriesRead | debug_remover/src/pelib/ResourceDirectory.cpp:670-785 | after a header within the limit: entries running past the image add no child; otherwise at most the declared number are read |
| Resources.NodeExpand | debug_remover/src/pelib/ResourceDirectory.cpp:680-785 | expanding a node records its offset and adds at most n children |
| Resources.CheckEntry | debug_remover/src/pelib/ResourceDirectory.cpp:711-754 | the checks on one entry only report loader errors; they end the node with ERROR_NONE or ERROR_INVALID_FILE, and let it go on only when the target is not a node already expanded |
| Resources.ChildRead | debug_remover/src/pelib/ResourceDirectory.cpp:755-765 | reading the child of an entry returns one of the three read codes and records only reachable node offsets |
| Resources.EntriesRead | debug_remover/src/pelib/ResourceDirectory.cpp:697-782 | the loop over the entries keeps the header, only adds children, adds at most one per remaining entry, and returns ERROR_NONE or ERROR_INVALID_FILE |
| Resources.EntryStops | debug_remover/src/pelib/ResourceDirectory.cpp:711-754 | an entry whose checks end the node ends the loop with their return code and the children read so far |
| Resources.EntryGoes | debug_remover/src/pelib/ResourceDirectory.cpp:765-779 | an entry that passes its checks has its child kept on ERROR_NONE, dropped on ERROR_SKIP_RESOURCE, and any other code ends the loop |
| Resources.NodeReadSkips | debug_remover/src/pelib/ResourceDirectory.cpp:659-664 | a node is skipped exactly when its header lies in the image and declares more entries than the limit allows |
| Resources.CycleStops | debug_remover/src/pelib/ResourceDirectory.cpp:749-753 | an entry whose target node was already expanded adds no child and records no new offset, whatever the target holds |
| Resources.AddedIdIsFound | debug_remover/src/pelib/ResourceDirectory.cpp:1170-1190 | a type added by an ID no child had is found by that ID at the end |
| Resources.AddedNameIsFound | debug_remover/src/pelib/ResourceDirectory.cpp:1195-1215 | a type added by a name no child had is found by that name at the end |
| Resources.AsInt32 | debug_remover/src/pelib/ResourceDirectory.cpp:1439 | an index below 2^31 returned through int is unchanged, a larger one turns negative |
| Resources.ResourceDirectory.constructor | debug_remover/src/pelib/ResourceDirectory.cpp:1033-1036 | a new directory has an empty root, no node offsets, no occupied ranges and no loader error |
| Resources.ResourceDirectory.SetLoaderError | debug_remover/src/pelib/ResourceDirectory.cpp:1076-1083 | the first loader error recorded is kept; a later one is ignored |
| Resources.ResourceDirectory.InsertNodeOffset | debug_remover/src/pelib/ResourceDirectory.cpp:1831-1834 | the offset is added to the set of expanded node offsets |
| Resources.ResourceDirectory.HasNodeOffset | debug_remover/src/pelib/ResourceDirectory.cpp:1840-1843 | the answer is true exactly when the offset was recorded |
| Resources.ResourceDirectory.AddOccupiedAddressRange | debug_remover/src/pelib/ResourceDirectory.cpp:1845-1848 | the range is appended to the occupied ranges |
| Resources.ResourceDirectory.ReadLeaf | debug_remover/src/pelib/ResourceDirectory.cpp:311-356 | reading a leaf into the directory gives the result and new state of the leaf-read function |
| Resources.ResourceDirectory.ReadLeafData | debug_remover/src/pelib/ResourceDirectory.cpp:328-355 | the leaf's data step gives the result and new state of its specification function |
| Resources.ResourceDirectory.ReadNode | debug_remover/src/pelib/ResourceDirectory.cpp:632-785 | reading a node into the directory gives the result and new state of the node-read function |
| Resources.ResourceDirectory.ReadNodeEntries | debug_remover/src/pelib/ResourceDirectory.cpp:670-785 | the part after the header gives the result of its specification function |
| Resources.ResourceDirectory.ExpandNode | debug_remover/src/pelib/ResourceDirectory.cpp:680-785 | recording the node and reading its entries gives the result of its specification function |
| Resources.ResourceDirectory.ReadEntries | debug_remover/src/pelib/ResourceDirectory.cpp:697-782 | the loop over n entries gives the result of the loop's specification function |
| Resources.ResourceDirectory.ReadEntry | debug_remover/src/pelib/ResourceDirectory.cpp:699-781 | one turn of the loop either ends it with the specification's result or leaves the rest of the loop to give it |
| Resources.ResourceDirectory.CheckEntryAt | debug_remover/src/pelib/ResourceDirectory.cpp:706-753 | the checks on one entry give the state, the decision to stop, the return code and the name of their specification function |
| Resources.ResourceDirectory.ReadChild | debug_remover/src/pelib/ResourceDirectory.cpp:755-765 | reading an entry's child gives the result of its specification function |
| Resources.ResourceDirectory.Read | debug_remover/src/pelib/ResourceDirectory.cpp:1051-1057 | the root is read from the resource data directory's RVA, with SizeOfImage as the bound |
| Resources.ResourceDirectory.MakeValidRoot | debug_remover/src/pelib/ResourceDirectory.cpp:1089-1092 | the root's children end up sorted and permuted, and counted in the header below 2^16 children |
| Resources.ResourceDirectory.RecalculateRoot | debug_remover/src/pelib/ResourceDirectory.cpp:1113-1117 | the tree is laid out from offset 0 at the new RVA, and the new size is the layout size modulo 2^32 |
| Resources.ResourceDirectory.AddResourceTypeId | debug_remover/src/pelib/ResourceDirectory.cpp:1170-1190 | a duplicate ID returns ERROR_DUPLICATE_ENTRY and changes nothing; otherwise a new type node with that ID is appended and is the first found with it |
| Resources.ResourceDirectory.AddResourceTypeName | debug_remover/src/pelib/ResourceDirectory.cpp:1195-1214 | a duplicate name returns ERROR_DUPLICATE_ENTRY and changes nothing; otherwise a new type node with that name is appended and is the first found with it |
| Resources.ResourceDirectory.RemoveResourceTypeId | debug_remover/src/pelib/ResourceDirectory.cpp:1220-1242 | a missing ID returns ERROR_ENTRY_NOT_FOUND and changes nothing; otherwise the first type with the ID is erased and counts that agreed still agree; the count is recounted as corrected, see Findings |
| Resources.ResourceDirectory.RemoveResourceTypeName | debug_remover/src/pelib/ResourceDirectory.cpp:1248-1270 | a missing name returns ERROR_ENTRY_NOT_FOUND and changes nothing; otherwise the first type with the name is erased and counts that agreed still agree; the count is recounted as corrected, see Findings |
| Resources.ResourceDirectory.RemoveResourceTypeByIndex | debug_remover/src/pelib/ResourceDirectory.cpp:1276-1289 | the type at the index is erased, the rest keep their order, and counts that agreed still agree; the count is recounted as corrected, see Findings |
| Resources.ResourceDirectory.ResourceTypeIdToIndex | debug_remover/src/pelib/ResourceDirectory.cpp:1430-1439 | -1 when no type has the ID; below 2^31 types, otherwise the position of the first type with it |
| Resources.ResourceDirectory.ResourceTypeNameToIndex | debug_remover/src/pelib/ResourceDirectory.cpp:1446-1455 | -1 when no type has the name; below 2^31 types, otherwise the position of the first type with it |
| Resources.HasTopBit | debug_remover/include/retdec/pelib/PeLibAux.h:170-171 | the field has the PELIB_IMAGE_RESOURCE_NAME_IS_STRING bit set, which is also DATA_IS_DIRECTORY |
| Resources.EqualId | debug_remover/src/pelib/ResourceDirectory.cpp:89-92 | equalId: the entry's Name field is the ID |
| Resources.EqualName | debug_remover/src/pelib/ResourceDirectory.cpp:99-102 | equalName: the entry's name string is the name |
| Resources.ChildLess | debug_remover/src/pelib/ResourceDirectory.cpp:116-134 | ResourceChild::operator<: named children first; names compare as strings and IDs as numbers |
| Resources.Sorted | debug_remover/src/pelib/ResourceDirectory.cpp:524 | no child is ordered before a child that precedes it |
| Resources.CountsAgree | debug_remover/src/pelib/ResourceDirectory.cpp:525-530 | the header's two counts agree with the children: the named ones, and the rest |
| Resources.MakeValidNode | debug_remover/src/pelib/ResourceDirectory.cpp:522-531 | ResourceNode::makeValid: the children sorted, NumberOfNamedEntries the count of named children cut to 16 bits, NumberOfIdEntries the remainder computed in 32 bits and cut to 16 |
| Resources.CountedHeader | debug_remover/src/pelib/ResourceDirectory.cpp:525-530 | the header with both counts recomputed from the sorted children |
| Resources.MakeValid | debug_remover/src/pelib/ResourceDirectory.cpp:395-531 | makeValid of an element: a node as in ResourceNode::makeValid, a leaf whose Size becomes its data length |
| Resources.NewType | debug_remover/src/pelib/ResourceDirectory.cpp:1170-1214 | the child a new resource type gets: the entry given, with an empty node below it |
| Resources.RemoveChildAsWritten | debug_remover/src/pelib/ResourceDirectory.cpp:1233-1239 | the removal as written: after child k is erased, the count of its kind is set to the number of all the children left |
| Resources.RemoveChild | debug_remover/src/pelib/ResourceDirectory.cpp:1233-1239 | the removal as intended: child k is erased and the count of its kind is recounted; corrected, see Findings |
| Resources.NameSize | debug_remover/src/pelib/ResourceDirectory.cpp:604-608 | the bytes a child's name takes: a length word and two bytes per character, for a string name |
| Resources.LayoutSize | debug_remover/src/pelib/ResourceDirectory.cpp:388-622 | the bytes recalculate assigns an element: a leaf's data entry and its Size bytes; a node's header, its entries, and each child's name and element in turn |
| Resources.ChildrenSize | debug_remover/src/pelib/ResourceDirectory.cpp:601-621 | the bytes the children from i onwards take |
| Resources.PlaceChild | debug_remover/src/pelib/ResourceDirectory.cpp:603-620 | one child laid out from the current offset: a string name gets its offset there with the flag bit; the element follows the name, and the child's data offset points at it and keeps the directory flag |
| Resources.Recalculate | debug_remover/src/pelib/ResourceDirectory.cpp:388-622 | ResourceLeaf::recalculate and ResourceNode::recalculate with the current offset threaded through: a leaf's data goes right after its 16-byte entry, at newRva plus that offset; a node places its header, its entries and then each child |
| Resources.EntriesEnd | debug_remover/src/pelib/ResourceDirectory.cpp:598-599 | where a node laid out from an offset puts its first child: past its header and its entries |
| Resources.RecalculateChildren | debug_remover/src/pelib/ResourceDirectory.cpp:601-621 | recalculate's loop over a node's children, from child i on |
| Resources.HeaderOf | debug_remover/src/pelib/ResourceDirectory.cpp:649 | PELIB_IMAGE_RESOURCE_DIRECTORY from its 16 little-endian bytes |
| Resources.DataEntryOf | debug_remover/src/pelib/ResourceDirectory.cpp:328-355 | PELIB_IMAGE_RESOURCE_DATA_ENTRY from its 16 little-endian bytes |
| Resources.ReadStringRc | debug_remover/src/pelib/ImageLoader.cpp:319-345 | readStringRc: a 16-bit length at the RVA, then that many UTF-16 units; as many whole units as the image holds are read, each cut to its low byte |
| Resources.DataInImage | debug_remover/src/pelib/ResourceDirectory.cpp:328-355 | ResourceLeaf::read's checks on an entry's data: offset and size within SizeOfImage, the range inside the image, and neither 32-bit sum wrapped |
| Resources.CountsWithinLimit | debug_remover/src/pelib/ResourceDirectory.cpp:659-664 | the entry counts a header may declare before the node is skipped |
| Imports.ClearOrdinalBit | debug_remover/include/retdec/pelib/ImportDirectory.h:751 | `x & ~mask` with the one-bit ordinal mask is x with that bit cleared |
| Imports.SignedChar | debug_remover/include/retdec/pelib/ImportDirectory.h:551 | a name byte read as a signed char is negative exactly for bytes from 0x80, and unchanged otherwise |
| Imports.IsBadImportName | debug_remover/include/retdec/pelib/ImportDirectory.h:543-568 | a DLL name is refused exactly when it is empty, starts at or below a space, or holds a byte outside 0x20..0x7E |
| Imports.FindThunk | debug_remover/include/retdec/pelib/ImportDirectory.h:63-99 | the search answers true exactly when some entry for the DLL (ignoring case) holds a thunk the comparison accepts |
| Imports.FileIndex | debug_remover/include/retdec/pelib/ImportDirectory.h:306-330 | the position found is the first entry for the DLL, ignoring case, or the length when there is none |
| Imports.AppendThunkImports | debug_remover/include/retdec/pelib/ImportDirectory.h:229-262 | after adding a function, a DLL imports a thunk exactly when it did before or it is the DLL added to and the thunk is the new one |
| Imports.AppendThunkPlacesThunk | debug_remover/include/retdec/pelib/ImportDirectory.h:229-262 | the new thunk is the last function of the first entry for the DLL, every other entry is kept, and a new entry appears only when there was none |
| Imports.Keep | debug_remover/include/retdec/pelib/ImportDirectory.h:922-929 | filtering never lengthens a list |
| Imports.KeepMeaning | debug_remover/include/retdec/pelib/ImportDirectory.h:922-929 | the filtered list holds exactly the accepted elements, and is as long as the input exactly when every element is accepted |
| Imports.KeepIdempotent | debug_remover/include/retdec/pelib/ImportDirectory.h:922-929 | filtering twice with the same test removes nothing more |
| Imports.WithoutFileMeaning | debug_remover/include/retdec/pelib/ImportDirectory.h:918-932 | no entry for the DLL is left, every other entry stays, and the list shrinks exactly when it held an entry for the DLL |
| Imports.WithoutThunks | debug_remover/include/retdec/pelib/ImportDirectory.h:940-965 | removing functions keeps the number of DLL entries |
| Imports.WithoutThunksMeaning | debug_remover/include/retdec/pelib/ImportDirectory.h:940-997 | afterwards no entry for the DLL holds a matching function, nothing new is imported, and every other function stays |
| Imports.RemoveThunks | debug_remover/include/retdec/pelib/ImportDirectory.h:940-997 | the loop gives the filtered list, and 0 exactly when a matching function was imported, 1 otherwise |
| Imports.EntriesTotalUpdate | debug_remover/include/retdec/pelib/ImportDirectory.h:1048-1056 | replacing one entry changes the summed size by the difference of the two entries' sizes |
| Imports.AppendThunkSize | debug_remover/include/retdec/pelib/PeLibAux.h:1095-1133 | adding a function grows the size by the thunk's size, plus a new descriptor, name, NUL and terminating pointer when the DLL was not listed |
| Imports.FunctionOf | debug_remover/include/retdec/pelib/ImportDirectory.h:476-496 | a thunk is reported by ordinal exactly when the ordinal bit is set, then with hint 0; otherwise with ordinal 0 and its hint; name and patch RVA always as stored |
| Imports.HintThunkReported | debug_remover/include/retdec/pelib/ImportDirectory.h:229-262 | a function added by hint is reported as an import by ordinal, with that hint as the ordinal |
| Imports.HintThunkOrdinal | debug_remover/include/retdec/pelib/ImportDirectory.h:246 | the ordinal word of a hint thunk is the hint plus the ordinal bit |
| Imports.NameThunkReported | debug_remover/include/retdec/pelib/ImportDirectory.h:267-300 | a function added by name is reported by name, with hint 0 and ordinal 0 |
| Imports.RoundUpEven | debug_remover/include/retdec/pelib/ImportDirectory.h:741 | `(e + 1) & ~1` is the even value e or e + 1, and wraps to 0 at the top of the 32-bit range |
| Imports.NameRangeAsWrittenEndsOdd | debug_remover/include/retdec/pelib/ImportDirectory.h:664-666 | as written, every recorded DLL name range ends at an odd address |
| Imports.NameRangeAsWrittenSample | debug_remover/include/retdec/pelib/ImportDirectory.h:664-666 | as written, a 6-byte name at 0x1000 is recorded up to 0x1007 and a 7-byte one up to 0x1009 |
| Imports.NameRange | debug_remover/include/retdec/pelib/ImportDirectory.h:664-666 | the intended DLL name range starts at the name and ends at the even address just past its NUL |
| Imports.DescriptorStep | debug_remover/include/retdec/pelib/ImportDirectory.h:603-645 | a descriptor ends the table when Name or FirstThunk is 0, is rejected with the matching loader error when either lies past the image or the name is bad, and is otherwise kept with the name read from the image |
| Imports.DescriptorsWellFormed | debug_remover/include/retdec/pelib/ImportDirectory.h:597-669 | every DLL the descriptor loop keeps was read from consecutive 20-byte descriptors and has a good name and the intended name range; DLL name ranges are the corrected ones, see Findings |
| Imports.EntryNames | debug_remover/include/retdec/pelib/ImportDirectory.h:647-657 | every entry's DLL name is among the names collected |
| Imports.DescriptorsNameCount | debug_remover/include/retdec/pelib/ImportDirectory.h:647-657 | the descriptor loop keeps at most 0x100 distinct DLL names, counting those seen before |
| Imports.ReadDescriptor | debug_remover/include/retdec/pelib/ImportDirectory.h:612-645 | reading one descriptor gives what its specification function gives |
| Imports.DescriptorPass | debug_remover/include/retdec/pelib/ImportDirectory.h:597-669 | one pass either ends the loop with the specification's result or keeps the DLL and moves on 20 bytes; DLL name ranges are the corrected ones, see Findings |
| Imports.ReadDescriptors | debug_remover/include/retdec/pelib/ImportDirectory.h:596-672 | the descriptor loop gives the entries, name ranges, end RVA and loader error of its specification function; DLL name ranges are the corrected ones, see Findings |
| Imports.ThunkOf | debug_remover/include/retdec/pelib/ImportDirectory.h:712-768 | a thunk keeps the pointer value as its ordinal word and the address-table slot as patch RVA, and reports at most LDR_ERROR_IMPDIR_THUNK_RVA_INVALID |
| Imports.ThunkReported | debug_remover/include/retdec/pelib/ImportDirectory.h:712-768 | a thunk read is reported by ordinal exactly when the ordinal bit is set, with the looked-up name when the ordinal fits in 16 bits and an error otherwise, and by name otherwise |
| Imports.ThunksCount | debug_remover/include/retdec/pelib/ImportDirectory.h:697-711 | one DLL's thunk loop reads at most 0x1000 functions and reports LDR_ERROR_IMPDIR_IMPORT_COUNT_EXCEEDED only after reading all of them |
| Imports.ThunksReadFromSlots | debug_remover/include/retdec/pelib/ImportDirectory.h:697-771 | each function of a DLL comes from the next slot of its two tables, one pointer size on each time |
| Imports.ReadThunks | debug_remover/include/retdec/pelib/ImportDirectory.h:697-771 | the thunk loop gives the functions, ranges and errors of its specification function |
| Imports.ReadThunk | debug_remover/include/retdec/pelib/ImportDirectory.h:699-770 | one pass of the thunk loop either ends it with the specification's result or adds one function and moves both tables on |
| Imports.LookupTable | debug_remover/include/retdec/pelib/ImportDirectory.h:682-684 | the lookup table is used when its RVA lies between SizeOfHeaders and SizeOfImage, the address table otherwise |
| Imports.AllThunksMeaning | debug_remover/include/retdec/pelib/ImportDirectory.h:676-771 | every kept DLL keeps its descriptor and name and gets the functions of its thunk loop, except that a DLL whose FirstThunk was met before gets none |
| Imports.AllThunksGlueStep | debug_remover/include/retdec/pelib/ImportDirectory.h:687-690 | a DLL whose FirstThunk was met before is kept without functions; otherwise its thunk loop is read |
| Imports.ReadAllThunks | debug_remover/include/retdec/pelib/ImportDirectory.h:676-771 | the loop over the DLLs gives the result of its specification function |
| Imports.ImportDirectory.constructor | debug_remover/include/retdec/pelib/ImportDirectory.h:104-108 | a new directory has empty lists, no occupied ranges, no loader error, and 32-bit thunks with ordinal mask 0x80000000 |
| Imports.ImportDirectory.SetPointerSize | debug_remover/include/retdec/pelib/ImportDirectory.h:537-541 | the thunk size becomes the pointer size and the ordinal mask its top bit; nothing else changes |
| Imports.ImportDirectory.SetLoaderError | debug_remover/include/retdec/pelib/ImportDirectory.h:407-414 | the first loader error recorded is kept; nothing else changes |
| Imports.ImportDirectory.HasFunction | debug_remover/include/retdec/pelib/ImportDirectory.h:63-99 | true exactly when the old list or the new list imports a matching function from the DLL |
| Imports.ImportDirectory.AddFunctionByHint | debug_remover/include/retdec/pelib/ImportDirectory.h:229-262 | a duplicate returns ERROR_DUPLICATE_ENTRY and changes nothing; otherwise a hint thunk goes into the new list, and only the new list changes |
| Imports.ImportDirectory.AddFunctionByName | debug_remover/include/retdec/pelib/ImportDirectory.h:267-300 | a duplicate returns ERROR_DUPLICATE_ENTRY and changes nothing; otherwise a name thunk goes into the new list, and only the new list changes |
| Imports.ImportDirectory.RemoveFile | debug_remover/include/retdec/pelib/ImportDirectory.h:918-932 | every new-list entry for the DLL is erased; 0 when one was there, 1 otherwise; nothing else changes |
| Imports.ImportDirectory.RemoveFunctionByName | debug_remover/include/retdec/pelib/ImportDirectory.h:940-965 | functions of that name go from the DLL's new-list entries; 0 when one went, 1 otherwise |
| Imports.ImportDirectory.RemoveFunctionByHint | debug_remover/include/retdec/pelib/ImportDirectory.h:973-997 | functions with that hint go from the DLL's new-list entries; 0 when one went, 1 otherwise |
| Imports.ImportDirectory.GetNumberOfFunctions | debug_remover/include/retdec/pelib/ImportDirectory.h:434-443 | an index out of range gives 0, otherwise the number of functions of that entry, when it fits in 32 bits |
| Imports.ImportDirectory.GetImportedFunction | debug_remover/include/retdec/pelib/ImportDirectory.h:457-500 | a function is returned exactly when both indices are in range, and it is reported as FunctionOf describes |
| Imports.ImportDirectory.CalculateSize | debug_remover/include/retdec/pelib/ImportDirectory.h:1048-1056 | the size is the sizes of the new entries plus one descriptor per old entry and one for the terminator, modulo 2^32 |
| Imports.ImportDirectory.Read | debug_remover/include/retdec/pelib/ImportDirectory.h:572-776 | read takes the image's pointer size and ordinal mask, fails with ERROR_INVALID_FILE and LDR_ERROR_IMPDIR_OUT_OF_FILE when the directory starts past the image, and otherwise stores the result of its two loops; DLL name ranges are the corrected ones, see Findings |
| Imports.ImportDirectory.ReadTables | debug_remover/include/retdec/pelib/ImportDirectory.h:590-776 | the descriptor loop, then the thunk loop of every kept DLL; the ranges are the names, the descriptor span and the function names, in that order; DLL name ranges are the corrected ones, see Findings |
| Imports.ImportDirectory.ImportList | debug_remover/include/retdec/pelib/ImportDirectory.h:306-330 | getImportList: the old or the new list |
| Imports.GoodImportName | debug_remover/include/retdec/pelib/ImportDirectory.h:543-568 | an acceptable DLL name: non-empty, printable throughout, not starting with a space |
| Imports.IsFile | debug_remover/include/retdec/pelib/ImportDirectory.h:306-330 | the entry is for the DLL; DLL names compare ignoring case |
| Imports.HasValidOriginalFirstThunk | debug_remover/include/retdec/pelib/ImportDirectory.h:216-219 | hasValidOriginalFirstThunk: SizeOfHeaders <= OriginalFirstThunk < SizeOfImage |
| Imports.NewEntry | debug_remover/include/retdec/pelib/ImportDirectory.h:229-262 | the entry a DLL gets with its first added function: a zeroed descriptor, its name and that thunk |
| Imports.AppendThunk | debug_remover/include/retdec/pelib/ImportDirectory.h:229-262 | addFunction's update of the new list: the thunk joins the first entry for the DLL, or a new last entry |
| Imports.HintThunk | debug_remover/include/retdec/pelib/ImportDirectory.h:229-262 | the thunk addFunction(file, hint) adds: the hint, with the ordinal bit over it |
| Imports.NameThunk | debug_remover/include/retdec/pelib/ImportDirectory.h:267-300 | the thunk addFunction(file, name) adds: only the name |
| Imports.WithoutFile | debug_remover/include/retdec/pelib/ImportDirectory.h:918-932 | removeFile's update of the new list: every entry for the DLL goes |
| Imports.EntrySize | debug_remover/include/retdec/pelib/ImportDirectory.h:1048-1056 | the exact size calculateSize gives one entry: its descriptor, name, NUL, thunks and a terminating pointer |
| Imports.EntriesTotal | debug_remover/include/retdec/pelib/ImportDirectory.h:1048-1056 | the exact sum of the entries' sizes |
| Imports.DescriptorOf | debug_remover/include/retdec/pelib/ImportDirectory.h:612 | a descriptor read into a zeroed record: bytes short of 20 stay zero |
| Imports.NameRangeAsWritten | debug_remover/include/retdec/pelib/ImportDirectory.h:664-666 | the range read records for a DLL name, as written: the name and its NUL, then one byte more when that end is even |
| Imports.Descriptors | debug_remover/include/retdec/pelib/ImportDirectory.h:597-670 | read's descriptor loop: LDR_ERROR_IMPDIR_CUT when the descriptor does not end before SizeOfImage; otherwise one descriptor, checked and kept, and on 20 bytes further; DLL name ranges are the corrected ones, see Findings |
| Imports.TooMany | debug_remover/include/retdec/pelib/ImportDirectory.h:648-658 | how many distinct DLLs may be kept before a new one ends the loop with LDR_ERROR_IMPDIR_COUNT_EXCEEDED |
| Imports.Thunks | debug_remover/include/retdec/pelib/ImportDirectory.h:693-772 | the thunk loop for one DLL: it ends at a pointer that cannot be read or is zero, and with LDR_ERROR_IMPDIR_IMPORT_COUNT_EXCEEDED at the limit |
| Imports.EntryThunks | debug_remover/include/retdec/pelib/ImportDirectory.h:682-772 | the thunk loop for one DLL, read from the lookup table when it is valid and from FirstThunk otherwise |
| Imports.AllThunks | debug_remover/include/retdec/pelib/ImportDirectory.h:676-773 | read's loop over the DLLs: each gets its thunk loop's functions, except that a DLL whose FirstThunk was already seen is skipped |
| BoundImports.DescriptorAt | debug_remover/src/pelib/BoundImportDirectory.cpp:97-99 | a descriptor read from the buffer has no name and no forwarders yet |
| BoundImports.Forwarders | debug_remover/src/pelib/BoundImportDirectory.cpp:103-115 | the forwarder loop succeeds only with exactly the declared number of records, each ending strictly before the buffer does |
| BoundImports.EncodeDescriptor | debug_remover/src/pelib/BoundImportDirectory.cpp:97-99 | a descriptor encodes to 8 bytes |
| BoundImports.EncodeDescriptors | debug_remover/src/pelib/BoundImportDirectory.cpp:103-115 | n descriptors encode to 8n bytes |
| BoundImports.DescriptorReencodes | debug_remover/src/pelib/BoundImportDirectory.cpp:97-99 | a descriptor read from the buffer encodes back to the 8 bytes it was read from |
| BoundImports.ForwardersReencode | debug_remover/src/pelib/BoundImportDirectory.cpp:103-115 | forwarder records that parse lie in the buffer, encode back to the bytes they were read from, and have no name or forwarders of their own |
| BoundImports.DescriptorsReencode | debug_remover/src/pelib/BoundImportDirectory.cpp:89-119 | a table that parses re-encodes to the bytes it was read from, up to its all-zero record; every module is well formed |
| BoundImports.NameAt | debug_remover/src/pelib/BoundImportDirectory.cpp:130-133 | a module name is the bytes from its offset, with no NUL, up to the first NUL or the end of the buffer |
| BoundImports.NamedForwardersMeaning | debug_remover/src/pelib/BoundImportDirectory.cpp:135-149 | the forwarder name loop fails exactly when some offset lies past the buffer, and otherwise names every forwarder from the buffer |
| BoundImports.NamedModulesMeaning | debug_remover/src/pelib/BoundImportDirectory.cpp:121-150 | the name loop fails exactly when some module or forwarder offset lies past the buffer, and otherwise names each from the buffer |
| BoundImports.ParseForwarders | debug_remover/src/pelib/BoundImportDirectory.cpp:103-115 | the forwarder loop gives the result of its specification function |
| BoundImports.ParseDescriptors | debug_remover/src/pelib/BoundImportDirectory.cpp:89-119 | the descriptor loop gives the result of its specification function |
| BoundImports.ReadName | debug_remover/src/pelib/BoundImportDirectory.cpp:130-133 | the byte loop copies the name NameAt describes |
| BoundImports.NameForwarders | debug_remover/src/pelib/BoundImportDirectory.cpp:135-149 | the forwarder name loop gives the result of its specification function |
| BoundImports.NameModules | debug_remover/src/pelib/BoundImportDirectory.cpp:121-150 | the name loop gives the result of its specification function |
| BoundImports.BoundImportRejected | debug_remover/src/pelib/BoundImportDirectory.cpp:176-182 | the directory is refused exactly when its size has a top-byte bit set or its end, computed without wrapping, is not below SizeOfImage |
| BoundImports.DirectoryBytes | debug_remover/src/pelib/BoundImportDirectory.cpp:184-185 | the buffer has `size` bytes, exactly the image's bytes when the range lies in the image |
| BoundImports.ModuleNames | debug_remover/src/pelib/BoundImportDirectory.cpp:325-334 | a module's names are its own name followed by its forwarders' names, in order |
| BoundImports.DedupIsSet | debug_remover/src/pelib/BoundImportDirectory.cpp:323-334 | the de-duplicated names hold each name of the input exactly once, as the std::set does |
| BoundImports.FindNameNc | debug_remover/src/pelib/BoundImportDirectory.cpp:31-37 | the duplicate search is true exactly when some module has the name, ignoring case |
| BoundImports.FirstNamed | debug_remover/src/pelib/BoundImportDirectory.cpp:58-62 | the position found is the first module with exactly that name, or the length when there is none |
| BoundImports.WithoutName | debug_remover/src/pelib/BoundImportDirectory.cpp:303-312 | removing modules never lengthens the list |
| BoundImports.WithoutNameMeaning | debug_remover/src/pelib/BoundImportDirectory.cpp:303-312 | removal keeps exactly the modules of another name, and changes nothing when no module has the name |
| BoundImports.BoundImportDirectory.constructor | debug_remover/include/retdec/pelib/BoundImportDirectory.h:29 | a new directory has no modules |
| BoundImports.BoundImportDirectory.ReadBuffer | debug_remover/src/pelib/BoundImportDirectory.cpp:87-156 | a table that fails to parse or to name returns ERROR_INVALID_FILE and keeps the old list; otherwise the parsed list replaces it |
| BoundImports.BoundImportDirectory.Read | debug_remover/src/pelib/BoundImportDirectory.cpp:170-189 | a refused directory returns ERROR_INVALID_FILE and keeps the old list; otherwise the directory's bytes are read as a buffer |
| BoundImports.BoundImportDirectory.AddBoundImport | debug_remover/src/pelib/BoundImportDirectory.cpp:29-49 | a name present ignoring case returns ERROR_DUPLICATE_ENTRY and changes nothing; otherwise a module without forwarders is appended |
| BoundImports.BoundImportDirectory.GetModuleIndex | debug_remover/src/pelib/BoundImportDirectory.cpp:56-70 | ERROR_ENTRY_NOT_FOUND exactly when no module has the name, otherwise the position of the first that has it |
| BoundImports.BoundImportDirectory.CalcNumberOfModules | debug_remover/src/pelib/BoundImportDirectory.cpp:75-78 | the number of modules, when it fits in 32 bits |
| BoundImports.BoundImportDirectory.Clear | debug_remover/src/pelib/BoundImportDirectory.cpp:294-297 | no module is left |
| BoundImports.BoundImportDirectory.RemoveBoundImport | debug_remover/src/pelib/BoundImportDirectory.cpp:303-312 | the modules left are the list without those of that name |
| BoundImports.BoundImportDirectory.TotalModules | debug_remover/src/pelib/BoundImportDirectory.cpp:191-201 | modules plus forwarders, modulo 2^32 |
| BoundImports.BoundImportDirectory.Size | debug_remover/src/pelib/BoundImportDirectory.cpp:319-342 | the size is 8 bytes per record and terminator plus each distinct name with its NUL, modulo 2^32 |
| BoundImports.SizeRecords | debug_remover/src/pelib/BoundImportDirectory.cpp:321-335 | the module loop counts 8 bytes per module, forwarder and terminator, modulo 2^32, and collects each name once |
| BoundImports.SizeNames | debug_remover/src/pelib/BoundImportDirectory.cpp:338-341 | the name loop adds each name's length plus one, modulo 2^32 |
| BoundImports.IsTerminator | debug_remover/src/pelib/BoundImportDirectory.cpp:102 | the all-zero descriptor that ends the table |
| BoundImports.Descriptors | debug_remover/src/pelib/BoundImportDirectory.cpp:91-120 | the descriptor loop: reading one fails unless it ends strictly before the buffer does, and the all-zero descriptor ends the table |
| BoundImports.EncodeTable | debug_remover/src/pelib/BoundImportDirectory.cpp:91-120 | the table the loop reads a module list from: each descriptor followed by its forwarders |
| BoundImports.ModuleWellFormed | debug_remover/src/pelib/BoundImportDirectory.cpp:104-116 | a stored module is no terminator and holds as many forwarders as its descriptor says, none of them with forwarders |
| BoundImports.TableAt | debug_remover/src/pelib/BoundImportDirectory.cpp:91-120 | the buffer holds a module list's encoding followed by an all-zero record that ends before the buffer does |
| BoundImports.NamedModules | debug_remover/src/pelib/BoundImportDirectory.cpp:122-151 | the name loop: each module and forwarder takes its name from the data, and an offset past dwSize fails |
| BoundImports.ReadTable | debug_remover/src/pelib/BoundImportDirectory.cpp:87-156 | read(inpBuffer, data, dwSize): the descriptor table, then its names; None for ERROR_INVALID_FILE |
| BoundImports.OffsetsInBuffer | debug_remover/src/pelib/BoundImportDirectory.cpp:125-142 | every name offset of a module and its forwarders lies within dwSize |
| BoundImports.ForwarderCount | debug_remover/src/pelib/BoundImportDirectory.cpp:331-336 | all forwarders, counted over the modules in order |
| BoundImports.AllNames | debug_remover/src/pelib/BoundImportDirectory.cpp:325-337 | every name, in the order size() inserts them into its set |
| BoundImports.Dedup | debug_remover/src/pelib/BoundImportDirectory.cpp:323-337 | the names without repeats, each where it first occurs |
| BoundImports.NameBytes | debug_remover/src/pelib/BoundImportDirectory.cpp:339-342 | the bytes the distinct names take with their NULs |
| BoundImports.DirectorySize | debug_remover/src/pelib/BoundImportDirectory.cpp:319-342 | size(): one record per module and per forwarder, the terminating record, and each distinct name once with its NUL, in 32-bit arithmetic |
| BoundImports.SizeModule | debug_remover/src/pelib/BoundImportDirectory.cpp:327-336 | one turn of size()'s module loop adds the module's record and its forwarders' records, and their names to the set |
| BoundImports.SizeRecord | debug_remover/src/pelib/BoundImportDirectory.cpp:333-335 | one record counted by size(): 8 bytes, and its name into the set |
| BoundImports.HasNameNc | debug_remover/src/pelib/BoundImportDirectory.cpp:31-37 | some module's name equals the name ignoring case |
| Exports.FunctionWords | debug_remover/src/pelib/ExportDirectory.cpp:64-71 | the first loop reads one export address table word per declared function |
| Exports.FunctionsRunMeaning | debug_remover/src/pelib/ExportDirectory.cpp:64-80 | the first loop fails exactly when some entry reads short; otherwise function i has entry i's RVA and ordinal Base + i, with one occupied range per entry |
| Exports.FunctionsRunStep | debug_remover/src/pelib/ExportDirectory.cpp:66-79 | one more entry read in full adds one function and the 4-byte range of that entry |
| Exports.FunctionsRunSticky | debug_remover/src/pelib/ExportDirectory.cpp:70-71 | after a short read the first loop's result stays as it was |
| Exports.NameReads | debug_remover/src/pelib/ExportDirectory.cpp:82-119 | the second loop reads one name ordinal and one name pointer per declared name |
| Exports.NameStepKeeps | debug_remover/src/pelib/ExportDirectory.cpp:98-101 | a name step keeps the number of functions, their RVAs and ordinals Base + index; an ordinal past the functions is skipped without failing, after its range is recorded |
| Exports.NamesRunKeeps | debug_remover/src/pelib/ExportDirectory.cpp:82-119 | the second loop keeps the number of functions, their RVAs and their ordinals |
| Exports.NamesRunSticky | debug_remover/src/pelib/ExportDirectory.cpp:89-109 | after a failure the second loop's result stays as it was |
| Exports.NamesRunAdvance | debug_remover/src/pelib/ExportDirectory.cpp:82-119 | one more iteration of the second loop from a state that has not failed applies that iteration's change |
| Exports.ExportReadRejects | debug_remover/src/pelib/ExportDirectory.cpp:33-123 | read builds a directory exactly when it returns ERROR_NONE, returns only ERROR_NONE or ERROR_INVALID_FILE, and refuses an export RVA at or past SizeOfImage, a short header and more than 0x1000 functions or names |
| Exports.ReadTablesFunctions | debug_remover/src/pelib/ExportDirectory.cpp:64-119 | the loops succeed only when every address entry reads in full, and the directory then has one function per entry with its RVA and ordinal Base + index |
| Exports.ExportReadFunctions | debug_remover/src/pelib/ExportDirectory.cpp:33-123 | a directory read successfully holds the header as read and at most 0x1000 functions, one per address entry, with its RVA and ordinal Base + index |
| Exports.FirstFunctionNamed | debug_remover/src/pelib/ExportDirectory.cpp:159-163 | the position found is the first function whose name equals the argument ignoring case, or the length |
| Exports.FunctionEntry | debug_remover/src/pelib/ExportDirectory.cpp:67-71 | reading one address entry gives the word its specification function gives |
| Exports.OrdinalEntry | debug_remover/src/pelib/ExportDirectory.cpp:86-91 | reading one name ordinal gives what its specification function gives, whatever SizeOfImage is |
| Exports.PointerEntry | debug_remover/src/pelib/ExportDirectory.cpp:103-109 | reading one name pointer, refused at or past SizeOfImage, gives what its specification function gives |
| Exports.NameIteration | debug_remover/src/pelib/ExportDirectory.cpp:84-118 | one iteration of the second loop gives the functions, ranges and failure of its specification function |
| Exports.NamedIteration | debug_remover/src/pelib/ExportDirectory.cpp:101-118 | the rest of an iteration once the ordinal picks a function gives what its specification function gives |
| Exports.ReadFunctionTable | debug_remover/src/pelib/ExportDirectory.cpp:64-80 | the first loop gives the ranges and the success of its specification function, and its functions when it succeeds |
| Exports.NameLoopStep | debug_remover/src/pelib/ExportDirectory.cpp:82-119 | one iteration from the state after the earlier ones gives the loop's state one iteration on |
| Exports.ReadNameTable | debug_remover/src/pelib/ExportDirectory.cpp:82-119 | the second loop gives the ranges and the success of its specification function, and its functions when it succeeds |
| Exports.ReadTablesOf | debug_remover/src/pelib/ExportDirectory.cpp:64-121 | the two loops give the outcome of their specification function |
| Exports.ReadExportTable | debug_remover/src/pelib/ExportDirectory.cpp:33-123 | read gives the status, directory and ranges of its specification function |
| Exports.TableSizes | debug_remover/src/pelib/ExportDirectory.cpp:188-194 | rebuild's first loop gives 4 bytes per function and 4 per named function, and an ordinal table size covering every ordinal written; the ordinal table is accounted as corrected, see Findings |
| Exports.RebuildFromParts | debug_remover/src/pelib/ExportDirectory.cpp:179-255 | the rebuilt bytes are the header followed by the tables and names |
| Exports.NamePointersStep | debug_remover/src/pelib/ExportDirectory.cpp:221-228 | one more function extends the name pointer table by its running position when it has a name |
| Exports.NamePointerOf | debug_remover/src/pelib/ExportDirectory.cpp:223-227 | one turn of the name pointer loop extends the table and the running position by one function |
| Exports.StreamAddresses | debug_remover/src/pelib/ExportDirectory.cpp:214-217 | the export address table loop writes every function's RVA in order |
| Exports.StreamNamePointers | debug_remover/src/pelib/ExportDirectory.cpp:219-228 | the name pointer loop writes the running name positions of the named functions |
| Exports.StreamNamedOrdinals | debug_remover/src/pelib/ExportDirectory.cpp:230-236 | the loop writes the ordinals of the named functions |
| Exports.StreamUnnamedOrdinals | debug_remover/src/pelib/ExportDirectory.cpp:238-244 | the loop writes the ordinals of the unnamed functions that have an address |
| Exports.StreamNames | debug_remover/src/pelib/ExportDirectory.cpp:248-254 | the loop writes each function name with its NUL |
| Exports.RebuiltHeader | debug_remover/src/pelib/ExportDirectory.cpp:200-212 | the header written places the tables and the file name back to back after it; the ordinal table is accounted as corrected, see Findings |
| Exports.RebuildDirectory | debug_remover/src/pelib/ExportDirectory.cpp:179-255 | rebuild gives the bytes of the layout function; the ordinal table is accounted as corrected, see Findings |
| Exports.ExportDirectory.constructor | debug_remover/include/retdec/pelib/ExportDirectory.h:25-31 | a new directory is empty and has no occupied ranges |
| Exports.ExportDirectory.AddOccupiedAddress | debug_remover/src/pelib/ExportDirectory.cpp:22-27 | the range of the string and its NUL is appended; the directory is unchanged |
| Exports.ExportDirectory.Read | debug_remover/src/pelib/ExportDirectory.cpp:33-123 | the ranges read are recorded even before a failure, and the directory is replaced only on success |
| Exports.ExportDirectory.Size | debug_remover/src/pelib/ExportDirectory.cpp:260-263 | the size is the header, the file name and its NUL, and each function's size, modulo 2^32 |
| Exports.ExportDirectory.Rebuild | debug_remover/src/pelib/ExportDirectory.cpp:179-255 | rebuild gives the bytes of the directory placed at the RVA; the ordinal table is accounted as corrected, see Findings |
| Exports.ExportDirectory.AddFunction | debug_remover/src/pelib/ExportDirectory.cpp:129-135 | a function with that name and RVA and no name RVA or ordinal goes at the end; nothing else changes |
| Exports.ExportDirectory.RemoveFunction | debug_remover/src/pelib/ExportDirectory.cpp:137-140 | the function at the index is erased and the others keep their order |
| Exports.ExportDirectory.Clear | debug_remover/src/pelib/ExportDirectory.cpp:142-145 | no function is left; the header and the file name stay |
| Exports.ExportDirectory.CalcNumberOfFunctions | debug_remover/src/pelib/ExportDirectory.cpp:147-150 | the number of functions, when it fits in 32 bits |
| Exports.ExportDirectory.GetFunctionIndex | debug_remover/src/pelib/ExportDirectory.cpp:157-172 | -1 exactly when no function has the name ignoring case, otherwise the first that has it |
| Exports.StringRange | debug_remover/src/pelib/ExportDirectory.cpp:22-27 | addOccupiedAddress: a string occupies its RVA up to one past its NUL, in 32 bits |
| Exports.FieldRange | debug_remover/src/pelib/ExportDirectory.cpp:76-79 | a fixed-size field occupies its RVA up to its last byte, in 32 bits |
| Exports.FunctionSlot | debug_remover/src/pelib/ExportDirectory.cpp:67 | the RVA of the i-th export address table entry: AddressOfFunctions + 4i in 32 bits |
| Exports.FunctionWord | debug_remover/src/pelib/ExportDirectory.cpp:69-71 | the i-th address table entry, when all four of its bytes can be read |
| Exports.NewFunction | debug_remover/src/pelib/ExportDirectory.cpp:73-74 | the record the first loop makes for the i-th function: its RVA and ordinal Base + i, with no name |
| Exports.FunctionStep | debug_remover/src/pelib/ExportDirectory.cpp:66-79 | one iteration of the first loop, given what the i-th entry read |
| Exports.FunctionsRun | debug_remover/src/pelib/ExportDirectory.cpp:64-80 | the state after k iterations of the first loop; once it fails nothing more happens |
| Exports.OrdinalsFromBase | debug_remover/src/pelib/ExportDirectory.cpp:73 | every function's ordinal is Base plus its index, in 16 bits |
| Exports.NameDelta | debug_remover/src/pelib/ExportDirectory.cpp:84-118 | one iteration of the second loop: an ordinal past the functions is skipped; otherwise that function gets ordinal Base + ordinal, its name RVA and its name, failing when the name RVA cannot be read |
| Exports.NameStep | debug_remover/src/pelib/ExportDirectory.cpp:84-118 | one iteration of the second loop, with its ranges appended to those recorded before |
| Exports.NamesRun | debug_remover/src/pelib/ExportDirectory.cpp:82-119 | the state after k iterations of the second loop; once it fails nothing more happens |
| Exports.SameAddressesAndCount | debug_remover/src/pelib/ExportDirectory.cpp:98-118 | the second loop changes functions only in their ordinal, names and name RVAs |
| Exports.ReadTables | debug_remover/src/pelib/ExportDirectory.cpp:64-121 | the two loops of read after the header and the file name, with the ranges they record |
| Exports.ExportRead | debug_remover/src/pelib/ExportDirectory.cpp:33-123 | ExportDirectory::read on the mapped image: the header checks, the file name, then both loops |
| ExportLayout.EncodeHeader | debug_remover/src/pelib/ExportDirectory.cpp:200-212 | the header encodes to 40 bytes |
| ExportLayout.HeaderRoundTrip | debug_remover/src/pelib/ExportDirectory.cpp:200-212 | a header written and read back, whatever follows, is the same header |
| ExportLayout.ExportSizeAppend | debug_remover/include/retdec/pelib/PeLibAux.h:1057-1061 | appending a function adds its own size to the directory's, modulo 2^32 |
| ExportLayout.NamedCount | debug_remover/src/pelib/ExportDirectory.cpp:192 | the named functions are at most all of them |
| ExportLayout.UnnamedWithAddress | debug_remover/src/pelib/ExportDirectory.cpp:240 | the unnamed functions with an address are at most all of them |
| ExportLayout.FuncAddrs | debug_remover/src/pelib/ExportDirectory.cpp:214-217 | the export address table has 4 bytes per function |
| ExportLayout.NamePointers | debug_remover/src/pelib/ExportDirectory.cpp:219-228 | the name pointer table has 4 bytes per named function |
| ExportLayout.NamedOrdinals | debug_remover/src/pelib/ExportDirectory.cpp:230-236 | the named ordinals take 2 bytes per named function |
| ExportLayout.UnnamedOrdinals | debug_remover/src/pelib/ExportDirectory.cpp:238-244 | the other ordinals take 2 bytes per unnamed function with an address |
| ExportLayout.NameStrings | debug_remover/src/pelib/ExportDirectory.cpp:248-254 | the names take their lengths plus one NUL each |
| ExportLayout.RebuildTail | debug_remover/src/pelib/ExportDirectory.cpp:214-254 | what follows the header has the length of all the tables, the file name and the names |
| ExportLayout.AfterAddresses | debug_remover/src/pelib/ExportDirectory.cpp:219-254 | what follows the address table has the length of the name pointers, both ordinal tables, the file name and the names |
| ExportLayout.OrdinalTables | debug_remover/src/pelib/ExportDirectory.cpp:219-244 | the name pointers and both ordinal tables take 6 bytes per named function and 2 per unnamed function with an address |
| ExportLayout.FuncAddrsAt | debug_remover/src/pelib/ExportDirectory.cpp:214-217 | the k-th word of the export address table is the k-th function's RVA |
| ExportLayout.RebuildLayout | debug_remover/src/pelib/ExportDirectory.cpp:179-255 | the rebuilt directory has the expected length, its tables after the header in order, and both counts equal to the number of functions |
| ExportLayout.HeaderFields | debug_remover/src/pelib/ExportDirectory.cpp:200-212 | the header read back from the rebuilt bytes is the header rebuild computed |
| ExportLayout.AddressChain | debug_remover/src/pelib/ExportDirectory.cpp:210-212 | each table RVA in the header is the previous one plus the previous table's size |
| ExportLayout.FunctionTableAt | debug_remover/src/pelib/ExportDirectory.cpp:214-217 | the rebuilt address table holds each function's RVA in order |
| ExportLayout.FileNameAt | debug_remover/src/pelib/ExportDirectory.cpp:246-254 | the file name and its NUL sit after the ordinal tables and the function names follow it |
| ExportLayout.NameFieldPointsAtName | debug_remover/src/pelib/ExportDirectory.cpp:193-204 | the header's Name field points at the file name exactly when the ordinal table is counted as long as it is written |
| ExportLayout.RebuildNameFieldIsName | debug_remover/src/pelib/ExportDirectory.cpp:193-246 | with the ordinal table counted in full, the Name field is the RVA of the file name |
| ExportLayout.RebuildAsWrittenMisplacesName | debug_remover/src/pelib/ExportDirectory.cpp:193-246 | as written, once an unnamed function has an address, the Name field points 2 bytes per such function before the file name |
| ExportLayout.OrdinalOnlyExportMisplacesName | debug_remover/src/pelib/ExportDirectory.cpp:193-246 | as written, a directory with one ordinal-only function gets Name 44 while its file name sits at 46 |
| ExportLayout.HeaderAt | debug_remover/src/pelib/ExportDirectory.cpp:46 | the export directory header read from 40 little-endian bytes |
| ExportLayout.FuncInfoSize | debug_remover/include/retdec/pelib/PeLibAux.h:1057-1061 | PELIB_EXP_FUNC_INFORMATION::size: 4 bytes, 2 more for a nonzero address, and 4 + the name + its NUL for a named function |
| ExportLayout.ExportSize | debug_remover/include/retdec/pelib/PeLibAux.h:1057-1061 | PELIB_IMAGE_EXP_DIRECTORY::size: the header, the file name and its NUL, and every function's size, in 32-bit arithmetic |
| ExportLayout.NamesBytes | debug_remover/src/pelib/ExportDirectory.cpp:248-254 | the bytes the function names take with their NULs |
| ExportLayout.RebuildHeader | debug_remover/src/pelib/ExportDirectory.cpp:188-212 | the header rebuild writes for a directory at an RVA: the tables follow the header back to back and the file name follows them |
| ExportLayout.OrdinalsSizeAsWritten | debug_remover/src/pelib/ExportDirectory.cpp:192-193 | the ordinal table's length as rebuild's size loop counts it: two bytes per named function |
| ExportLayout.OrdinalsSize | debug_remover/src/pelib/ExportDirectory.cpp:230-244 | the ordinal table's length as rebuild writes it: two bytes per named function and per unnamed one with an address |
| ExportLayout.RebuildAsWritten | debug_remover/src/pelib/ExportDirectory.cpp:179-255 | rebuild as written: the tables laid out with the ordinal table counted for named functions only |
| ExportLayout.Rebuild | debug_remover/src/pelib/ExportDirectory.cpp:179-255 | rebuild as intended: the ordinals of unnamed functions counted too, so that the name fields point at the names; corrected, see Findings |
| ExportLayout.FileNamePosition | debug_remover/src/pelib/ExportDirectory.cpp:246-254 | where the file name is placed in the rebuilt bytes |
| IatDirectories.Items | debug_remover/src/pelib/IatDirectory.cpp:24-27 | the buffer is seen as its whole 32-bit little-endian words, one item per 4 bytes |
| IatDirectories.UpToZero | debug_remover/src/pelib/IatDirectory.cpp:31-39 | the items kept are a prefix of the items with no zero before the last, and a shorter prefix ends in the zero terminator |
| IatDirectories.UpToZeroCutsAtFirstZero | debug_remover/src/pelib/IatDirectory.cpp:36-38 | the items kept stop at and include the first zero |
| IatDirectories.UpToZeroWithoutZero | debug_remover/src/pelib/IatDirectory.cpp:31-39 | without a zero every item is kept |
| IatDirectories.CollectItems | debug_remover/src/pelib/IatDirectory.cpp:31-39 | the loop keeps the items up to and including the first zero |
| IatDirectories.IatRejectedMeaning | debug_remover/src/pelib/IatDirectory.cpp:56-62 | the table is accepted exactly when its size is below 2^24 and its end is below SizeOfImage |
| IatDirectories.Rebuild | debug_remover/src/pelib/IatDirectory.cpp:147-156 | the rebuilt table has 4 bytes per item |
| IatDirectories.RebuildItems | debug_remover/src/pelib/IatDirectory.cpp:147-156 | reading the rebuilt bytes gives back the items |
| IatDirectories.ItemsAppend | debug_remover/src/pelib/IatDirectory.cpp:152-155 | one more word written adds one more item |
| IatDirectories.IatDirectory.constructor | debug_remover/include/retdec/pelib/IatDirectory.h:25-28 | a new table is empty |
| IatDirectories.IatDirectory.ReadBuffer | debug_remover/src/pelib/IatDirectory.cpp:22-42 | the table becomes the buffer's items up to the first zero and the result is ERROR_NONE |
| IatDirectories.IatDirectory.Read | debug_remover/src/pelib/IatDirectory.cpp:48-84 | ERROR_INVALID_FILE exactly for a rejected table, which leaves the items as they were; otherwise the items read from the image up to the first zero |
| IatDirectories.IatDirectory.CalcNumberOfAddresses | debug_remover/src/pelib/IatDirectory.cpp:91-94 | the number of items, when it fits in 32 bits |
| IatDirectories.IatDirectory.SetAddress | debug_remover/src/pelib/IatDirectory.cpp:111-114 | only the item at the index changes |
| IatDirectories.IatDirectory.AddAddress | debug_remover/src/pelib/IatDirectory.cpp:120-123 | the value is appended |
| IatDirectories.IatDirectory.RemoveAddress | debug_remover/src/pelib/IatDirectory.cpp:129-133 | the item at the index goes and the others keep their order |
| IatDirectories.IatDirectory.Clear | debug_remover/src/pelib/IatDirectory.cpp:138-141 | the table is emptied |
| IatDirectories.IatDirectory.Size | debug_remover/src/pelib/IatDirectory.cpp:158-161 | the size is the length of the rebuilt table, when it fits in 32 bits |
| IatDirectories.IatDirectory.GetAddress | debug_remover/src/pelib/IatDirectory.cpp:101-104 | entry i of the table; an index past the table is undefined behaviour in the source and is excluded |
| IatDirectories.IatRejected | debug_remover/src/pelib/IatDirectory.cpp:56-62 | the loader read's refusal: a size with a top-byte bit set, a wrapping end, or a range reaching SizeOfImage |
| DelayImports.InitRecord | debug_remover/include/retdec/pelib/PeLibAux.h:1433-1439 | a new record has a zeroed descriptor, no name, no functions and the ordinal flag down |
| DelayImports.AddFunction | debug_remover/include/retdec/pelib/PeLibAux.h:1441-1448 | the function is appended and the ordinal flag goes up exactly when it was up or the hint is nonzero, so the flag keeps agreeing with the hints |
| DelayImports.GetFunction | debug_remover/include/retdec/pelib/PeLibAux.h:1460-1468 | a function exactly for an index below the count, and then the function at that index |
| DelayImports.NormalizeDelayImportValue | debug_remover/include/retdec/pelib/DelayImportDirectory.h:45-68 | the value is kept or has the image base taken off, and never grows |
| DelayImports.NormalizeRecoversRva | debug_remover/include/retdec/pelib/DelayImportDirectory.h:45-68 | a nonzero RVA turned into a VA comes back as the RVA, and a value not above the image base stays |
| DelayImports.Normalize32BitDelayImport | debug_remover/include/retdec/pelib/DelayImportDirectory.h:70-78 | each of the six RVA fields is normalised and Attributes and TimeStamp stay |
| DelayImports.TerminationEntryIsZero | debug_remover/include/retdec/pelib/DelayImportDirectory.h:80-90 | a termination entry is exactly the all-zero descriptor |
| DelayImports.TerminationCheckSubsumed | debug_remover/include/retdec/pelib/DelayImportDirectory.h:122-128 | a descriptor that passes the NameRva check is never a termination entry |
| DelayImports.PointerReadInImage | debug_remover/include/retdec/pelib/DelayImportDirectory.h:155-156 | a pointer read in full lies inside the image |
| DelayImports.EntryAtRva | debug_remover/include/retdec/pelib/DelayImportDirectory.h:150-163 | the k-th entry of a pointer table is the pointer at the table start plus k pointer sizes |
| DelayImports.NameTableMeaning | debug_remover/include/retdec/pelib/DelayImportDirectory.h:147-163 | a name table read holds the nonzero entries before the first zero; reading fails only when some entry cannot be read |
| DelayImports.AddressTableMeaning | debug_remover/include/retdec/pelib/DelayImportDirectory.h:169-186 | the address table read holds at most one entry per name, nonzero and in order, and a shorter table ends at a zero entry |
| DelayImports.AddressTableFails | debug_remover/include/retdec/pelib/DelayImportDirectory.h:177-179 | the address table fails only when one of its first entries cannot be read |
| DelayImports.Imports | debug_remover/include/retdec/pelib/DelayImportDirectory.h:192 | one candidate function per pair, for the shorter of the two tables |
| DelayImports.MergedMeaning | debug_remover/include/retdec/pelib/DelayImportDirectory.h:192-225 | the merged functions are the candidates of the first pairs in order, stopping at the first pair whose hint cannot be read |
| DelayImports.RecordsPastImage | debug_remover/include/retdec/pelib/DelayImportDirectory.h:111-112 | a descriptor position at or past SizeOfImage ends the table without error |
| DelayImports.RecordsUnfold | debug_remover/include/retdec/pelib/DelayImportDirectory.h:106-228 | past the end of table the read stops without error, on an invalid descriptor it stops with an error, and otherwise the record is followed by the records after it |
| DelayImports.DescriptorStopRules | debug_remover/include/retdec/pelib/DelayImportDirectory.h:111-128 | the table ends exactly at an unreadable descriptor, Attributes above 1, or NameRva or the name table RVA below the DOS header size |
| DelayImports.DescriptorRecord | debug_remover/include/retdec/pelib/DelayImportDirectory.h:130-227 | a record has the normalised descriptor, both tables inside the image, the library name as read, a valid ordinal flag and the merged functions of its tables |
| DelayImports.StepRecordValid | debug_remover/include/retdec/pelib/DelayImportDirectory.h:137-138 | every record read has both tables inside the image and a flag that agrees with its hints |
| DelayImports.RecordsHead | debug_remover/include/retdec/pelib/DelayImportDirectory.h:106-228 | the first record read is well formed and followed by the records after it |
| DelayImports.RecordsValid | debug_remover/include/retdec/pelib/DelayImportDirectory.h:106-228 | every record read is well formed |
| DelayImports.ReadNameTable | debug_remover/include/retdec/pelib/DelayImportDirectory.h:147-163 | the loop gives the name table of its specification function |
| DelayImports.ReadAddressTable | debug_remover/include/retdec/pelib/DelayImportDirectory.h:169-186 | the loop gives the address table of its specification function |
| DelayImports.MergeFunctions | debug_remover/include/retdec/pelib/DelayImportDirectory.h:192-225 | the merged functions are appended, the rest of the record stays, and the flag keeps agreeing with the hints |
| DelayImports.ReadDescriptor | debug_remover/include/retdec/pelib/DelayImportDirectory.h:108-225 | one descriptor step gives the outcome of its specification function |
| DelayImports.ReadDescriptorAt | debug_remover/include/retdec/pelib/DelayImportDirectory.h:108-227 | a step that ends the table gives the records so far, and a record step moves the read one descriptor on |
| DelayImports.ReadRecords | debug_remover/include/retdec/pelib/DelayImportDirectory.h:106-229 | the loop gives the records and the status of its specification function |
| DelayImports.DelayImportDirectory.constructor | debug_remover/include/retdec/pelib/DelayImportDirectory.h:32-35 | a new directory has no records |
| DelayImports.DelayImportDirectory.Read | debug_remover/include/retdec/pelib/DelayImportDirectory.h:92-230 | an RVA at or past SizeOfImage fails and keeps the records; otherwise the records are those read, kept also on failure, and the status says whether the read ended cleanly |
| DelayImports.DelayImportDirectory.GetNumberOfFiles | debug_remover/include/retdec/pelib/DelayImportDirectory.h:232-235 | the number of records |
| DelayImports.DelayImportDirectory.GetFile | debug_remover/include/retdec/pelib/DelayImportDirectory.h:237-240 | a record exactly for an index below the count, and then the record at that index |
| DelayImports.RecordValid | debug_remover/include/retdec/pelib/PeLibAux.h:1441-1448 | the ordinal flag is up exactly when some function carries a nonzero hint |
| DelayImports.IsTerminationEntry | debug_remover/include/retdec/pelib/DelayImportDirectory.h:80-90 | isTerminationEntry: every descriptor field is zero |
| DelayImports.DescriptorFrom | debug_remover/include/retdec/pelib/DelayImportDirectory.h:108-114 | the descriptor read into a zeroed record: bytes short of 32 stay zero |
| DelayImports.NameTable | debug_remover/include/retdec/pelib/DelayImportDirectory.h:147-163 | the name table: pointer-sized entries up to the first zero one; ERROR_INVALID_FILE when an entry cannot be read |
| DelayImports.AddressTable | debug_remover/include/retdec/pelib/DelayImportDirectory.h:169-186 | the address table: at most as many entries as names, up to the first zero one; ERROR_INVALID_FILE when an entry cannot be read |
| DelayImports.EntryRva | debug_remover/include/retdec/pelib/DelayImportDirectory.h:157 | the RVA of entry k of a pointer table: k pointer steps, each a 32-bit sum |
| DelayImports.EntryAt | debug_remover/include/retdec/pelib/DelayImportDirectory.h:155-157 | entry k of a pointer table: the pointer read after k steps |
| DelayImports.ImportOf | debug_remover/include/retdec/pelib/DelayImportDirectory.h:195-224 | one merged function: by name it reads the hint and the name, normalized first for old-format descriptors; by ordinal it takes the low 16 bits; an address inside the image becomes an RVA |
| DelayImports.Merged | debug_remover/include/retdec/pelib/DelayImportDirectory.h:192-225 | the functions a record gets: the pairs in order, up to the first hint that cannot be read |
| DelayImports.EndsTable | debug_remover/include/retdec/pelib/DelayImportDirectory.h:118-128 | a descriptor read from the image ends the table: Attributes above V2, a NameRva or name-table RVA below the DOS header size, or an all-zero descriptor |
| DelayImports.Normalized | debug_remover/include/retdec/pelib/DelayImportDirectory.h:133-134 | the descriptor as used: an old-format descriptor of a 32-bit image normalized |
| DelayImports.DescriptorStep | debug_remover/include/retdec/pelib/DelayImportDirectory.h:108-227 | one pass of read's descriptor loop for the descriptor at a position |
| DelayImports.Records | debug_remover/include/retdec/pelib/DelayImportDirectory.h:106-228 | read's descriptor loop: one descriptor every 32 bytes until one lies outside the image, ends the table or is invalid |
| DelayImports.WellRead | debug_remover/include/retdec/pelib/DelayImportDirectory.h:137-138 | a record as read: its flag agrees with its hints and both its tables start inside the image |
| CoffSymbols.RunFrom | debug_remover/src/pelib/CoffSymbolTable.cpp:43 | the bytes scanned from the name offset hold no NUL and stay below the string table size |
| CoffSymbols.RunShape | debug_remover/src/pelib/CoffSymbolTable.cpp:43 | the run holds the string table's bytes from the offset on and stops at a NUL or at the string table size |
| CoffSymbols.LongName | debug_remover/src/pelib/CoffSymbolTable.cpp:41-56 | a long name is a prefix of the run, cut short only at the maximum length when that prefix has a non-printable byte |
| CoffSymbols.LongNameCut | debug_remover/src/pelib/CoffSymbolTable.cpp:47-51 | a run longer than the maximum whose first bytes are not all printable is cut after them |
| CoffSymbols.LongNameWhole | debug_remover/src/pelib/CoffSymbolTable.cpp:43-55 | a run whose first bytes are printable is kept whole |
| CoffSymbols.ReadLongName | debug_remover/src/pelib/CoffSymbolTable.cpp:43-55 | the name loop gives the long name of its specification function |
| CoffSymbols.ReadShortName | debug_remover/src/pelib/CoffSymbolTable.cpp:60-63 | the short name is the 8-byte field up to its first NUL |
| CoffSymbols.RecordAt | debug_remover/src/pelib/CoffSymbolTable.cpp:30-37 | a symbol record is 18 bytes |
| CoffSymbols.DecodeSymbol | debug_remover/src/pelib/CoffSymbolTable.cpp:28-64 | a symbol has the slot as its index and the aux count of its record; a nonzero Zeroes gives the short name of at most 8 bytes, and a zero one with a string table and an offset gives the long name; no name has a NUL |
| CoffSymbols.SymbolAt | debug_remover/src/pelib/CoffSymbolTable.cpp:28-64 | the symbol of a slot has that slot's aux count |
| CoffSymbols.ReadSymbol | debug_remover/src/pelib/CoffSymbolTable.cpp:28-64 | reading one slot gives the symbol of its specification function |
| CoffSymbols.Slots | debug_remover/src/pelib/CoffSymbolTable.cpp:26-69 | the slots visited lie between the start and the slot count, one per visit |
| CoffSymbols.SlotsSkipAux | debug_remover/src/pelib/CoffSymbolTable.cpp:26-66 | the walk starts at the first slot and each next slot is one past the previous one's aux symbols |
| CoffSymbols.Symbols | debug_remover/src/pelib/CoffSymbolTable.cpp:26-69 | one symbol per slot visited, at most the slot count, each the symbol of its slot |
| CoffSymbols.SymbolIndexIsSlot | debug_remover/src/pelib/CoffSymbolTable.cpp:38 | each symbol's Index is the slot it was read from |
| CoffSymbols.SlotsAdvance | debug_remover/src/pelib/CoffSymbolTable.cpp:66-67 | skipping one symbol and its aux symbols moves the walk one slot on |
| CoffSymbols.SymbolsReadAppend | debug_remover/src/pelib/CoffSymbolTable.cpp:68 | the symbol of the next slot appended keeps the symbols read in step with the slots |
| CoffSymbols.SymbolsReadAll | debug_remover/src/pelib/CoffSymbolTable.cpp:26-69 | a symbol for every slot visited is the whole walk |
| CoffSymbols.ReadNextSymbol | debug_remover/src/pelib/CoffSymbolTable.cpp:28-68 | one step of the walk reads the symbol of the next slot and gives its aux count |
| CoffSymbols.WalkSlots | debug_remover/src/pelib/CoffSymbolTable.cpp:26-69 | the loop reads a symbol for every slot it visits |
| CoffSymbols.WalkSymbols | debug_remover/src/pelib/CoffSymbolTable.cpp:22-72 | the walker over ⌊size/18⌋ slots gives the symbols of its specification function |
| CoffSymbols.LowReplaced | debug_remover/src/pelib/CoffSymbolTable.cpp:99 | copying a 32-bit field into the low half of the size keeps the high half |
| CoffSymbols.U32Padded | debug_remover/src/pelib/CoffSymbolTable.cpp:108 | a read of four bytes inside the file gives the little-endian word there |
| CoffSymbols.StringTablePhase | debug_remover/src/pelib/CoffSymbolTable.cpp:95-126 | the string table starts inside the file and its size never exceeds the rest of the file plus 4; a table over 4 bytes holds the file bytes after the size field |
| CoffSymbols.StringTableFromField | debug_remover/src/pelib/CoffSymbolTable.cpp:95-126 | with a whole size field of at least 4, the size is that field when the file holds it, otherwise the rest of the file, and the table is the file's bytes from the field on |
| CoffSymbols.CoffSymbolTable.constructor | debug_remover/src/pelib/CoffSymbolTable.cpp:12-15 | a new table has no symbols, no string table and no loader error |
| CoffSymbols.CoffSymbolTable.Read | debug_remover/src/pelib/CoffSymbolTable.cpp:74-130 | ERROR_INVALID_FILE exactly for a wrapping range or an offset or string table at or past the end of the file, with nothing changed; otherwise the table is copied, the string table set up, the symbols walked are appended and the stored count is their number |
| CoffSymbols.CoffSymbolTable.SetLoaderError | debug_remover/src/pelib/CoffSymbolTable.cpp:137-143 | the first loader error recorded is kept; a later one is ignored |
| CoffSymbols.Printable | debug_remover/src/pelib/CoffSymbolTable.cpp:49 | isprint in the C locale: space through tilde |
| CoffSymbols.SymbolsRead | debug_remover/src/pelib/CoffSymbolTable.cpp:26-69 | the symbols found so far are those of the first visited slots |
| CoffSymbols.SizeCopyEndAsWritten | debug_remover/src/pelib/CoffSymbolTable.cpp:108 | the size copy as written always copies four bytes from the string-table offset |
| CoffSymbols.SizeCopyAsWrittenOverreads | debug_remover/src/pelib/CoffSymbolTable.cpp:96-108 | with one to three bytes after the string-table offset, the copy at line 108 is taken from that offset and ends past the file |
| CoffSymbols.SizeCopyAsWrittenSample | debug_remover/src/pelib/CoffSymbolTable.cpp:108 | a ten-byte file with the string table at 8: the copy reads bytes 10 and 11 |
| CoffSymbols.U32PaddedPartial | debug_remover/src/pelib/CoffSymbolTable.cpp:108 | the corrected copy reads only the bytes left in the file: they form the low bytes of the word, and the rest is zero |
| SecurityDirectories.Certificates | debug_remover/src/pelib/SecurityDirectory.cpp:65-85 | the certificates walked fit inside the table |
| SecurityDirectories.CertificatesUnfold | debug_remover/src/pelib/SecurityDirectory.cpp:66-71 | the walk from a header that fits starts with that header |
| SecurityDirectories.CompleteWalkTiles | debug_remover/src/pelib/SecurityDirectory.cpp:65-85 | a walk that uses up the table has certificate lengths adding up to the table's size |
| SecurityDirectories.WalkedCertificatesAccepted | debug_remover/src/pelib/SecurityDirectory.cpp:73-81 | every certificate walked has Length above 8, revision 0x100 or 0x200, type 2, and Length - 8 payload bytes |
| SecurityDirectories.CompleteWalkReencodes | debug_remover/src/pelib/SecurityDirectory.cpp:65-85 | a table walked to its end is its certificates laid out one after another |
| SecurityDirectories.WalkStep | debug_remover/src/pelib/SecurityDirectory.cpp:68-84 | an accepted certificate that fits is the header and payload at the offset, and the walk goes on after it |
| SecurityDirectories.ReadCertificate | debug_remover/src/pelib/SecurityDirectory.cpp:68-84 | one pass of the loop gives the next certificate of the walk, or how the walk ends |
| SecurityDirectories.WalkCertificates | debug_remover/src/pelib/SecurityDirectory.cpp:65-85 | the loop gives the certificates and the ending of its specification function |
| SecurityDirectories.CutAsWrittenMissesWrap | debug_remover/src/pelib/SecurityDirectory.cpp:44-45 | as written, a table at offset 0xFFFFFFF0 of size 0x20 passes the file-size check of a 256-byte file |
| SecurityDirectories.StoredSizeAsWrittenIgnoresRead | debug_remover/src/pelib/SecurityDirectory.cpp:89 | as written, the stored size after the first successful read of a non-empty table is not the table's size |
| SecurityDirectories.SecurityDirectory.constructor | debug_remover/src/pelib/SecurityDirectory.cpp:12-13 | a new directory has no certificates, no loader error, and offset and size 0 |
| SecurityDirectories.SecurityDirectory.Read | debug_remover/src/pelib/SecurityDirectory.cpp:30-92 | the loader error is reset; a table past the end of the file fails with DIGITAL_SIGNATURE_CUT and an all-zero one with DIGITAL_SIGNATURE_ZEROED, changing nothing else; otherwise the certificates walked are appended and the read succeeds exactly when the walk used up the table, storing the offset and the size; the file-size check and the stored size are the corrected ones, see Findings |
| SecurityDirectories.SecurityDirectory.CalcNumberOfCertificates | debug_remover/src/pelib/SecurityDirectory.cpp:15-18 | the number of certificates, when it fits in 32 bits |
| SecurityDirectories.HeaderAccepted | debug_remover/src/pelib/SecurityDirectory.cpp:73-81 | the certificate header checks: Length past the header, a known revision, PKCS signed data |
| SecurityDirectories.TotalLength | debug_remover/src/pelib/SecurityDirectory.cpp:65-85 | the sum of the certificates' lengths |
| SecurityDirectories.CertificatesFrom | debug_remover/src/pelib/SecurityDirectory.cpp:65-85 | the walk from an offset inside the table: the header must fit |
| SecurityDirectories.EncodeCertificate | debug_remover/src/pelib/SecurityDirectory.cpp:68-84 | a certificate laid out again: its header fields, then its payload |
| SecurityDirectories.CutAsWritten | debug_remover/src/pelib/SecurityDirectory.cpp:44-45 | the file-size check as written: the end is the 32-bit sum offset + size, which can wrap |
| SecurityDirectories.DirectoryCut | debug_remover/src/pelib/SecurityDirectory.cpp:44-45 | the file-size check as intended: the table must end inside the file; corrected, see Findings |
| SecurityDirectories.StoredSizeAsWritten | debug_remover/src/pelib/SecurityDirectory.cpp:89 | the stored size as written: read assigns the member to itself, so it keeps its old value |
| TlsDirectories.EncodeTls64 | debug_remover/include/retdec/pelib/TlsDirectory.h:161-162 | the 64-bit record is 40 bytes |
| TlsDirectories.EncodeTls32 | debug_remover/include/retdec/pelib/TlsDirectory.h:147-157 | the 32-bit record is 24 bytes |
| TlsDirectories.DecodeTls32 | debug_remover/include/retdec/pelib/TlsDirectory.h:99-105 | each of the six fields of the 24-byte record is widened unchanged into the 64-bit record |
| TlsDirectories.DecodeEncodeTls64 | debug_remover/include/retdec/pelib/TlsDirectory.h:110-112 | a 64-bit record rebuilt and read back is the same record |
| TlsDirectories.DecodeEncodeTls32 | debug_remover/include/retdec/pelib/TlsDirectory.h:99-105 | a record whose addresses fit in 32 bits survives the 32-bit rebuild and the widening read |
| TlsDirectories.Callbacks | debug_remover/include/retdec/pelib/TlsDirectory.h:121-132 | at most the given number of callbacks are collected |
| TlsDirectories.CallbacksUnfold | debug_remover/include/retdec/pelib/TlsDirectory.h:123-131 | a failed read or a zero value ends the callbacks; a nonzero value is kept and the read goes on one pointer further |
| TlsDirectories.CallbackAt | debug_remover/include/retdec/pelib/TlsDirectory.h:121-132 | every callback collected is nonzero and is the pointer read at its slot |
| TlsDirectories.CallbacksEnd | debug_remover/include/retdec/pelib/TlsDirectory.h:125-128 | fewer callbacks than the limit means the next slot failed to read or held zero |
| TlsDirectories.ReadCallback | debug_remover/include/retdec/pelib/TlsDirectory.h:123-131 | one turn of the callback loop gives the next value of its specification function |
| TlsDirectories.CollectCallbacks | debug_remover/include/retdec/pelib/TlsDirectory.h:119-132 | the loop collects the callbacks of its specification function, at most 0x100 |
| TlsDirectories.SizeAsWrittenIgnoresBitability | debug_remover/include/retdec/pelib/TlsDirectory.h:172-175 | as written the size after a read is 40, also for a 32-bit image whose record is 24 bytes |
| TlsDirectories.TlsSize | debug_remover/include/retdec/pelib/TlsDirectory.h:172-175 | the intended size is 24 exactly for 4-byte pointers |
| TlsDirectories.TlsSizeFollowsImage | debug_remover/include/retdec/pelib/TlsDirectory.h:87-113 | the intended size is 24 for a 32-bit image and 40 for a 64-bit one, the record read reads |
| TlsDirectories.RecordSize | debug_remover/include/retdec/pelib/TlsDirectory.h:90-112 | read copies the record of the intended size |
| TlsDirectories.RecordBytes | debug_remover/include/retdec/pelib/TlsDirectory.h:95 | read obtains at most the record's size |
| TlsDirectories.CompleteReadDecodes | debug_remover/include/retdec/pelib/TlsDirectory.h:90-112 | a complete read gives the record its bytes encode, whatever was there before |
| TlsDirectories.EmptyReadKeepsRecord | debug_remover/include/retdec/pelib/TlsDirectory.h:90-112 | a read that reaches no byte keeps the record as it was |
| TlsDirectories.ShortReadKeepsTail | debug_remover/include/retdec/pelib/TlsDirectory.h:110 | a short 64-bit read that stops before byte 32 keeps SizeOfZeroFill and Characteristics |
| TlsDirectories.CallbacksAfterRead | debug_remover/include/retdec/pelib/TlsDirectory.h:117-133 | at most 0x100 callbacks, and none unless AddressOfCallBacks lies strictly between ImageBase and ImageBase + SizeOfImage |
| TlsDirectories.ReadRecord | debug_remover/include/retdec/pelib/TlsDirectory.h:90-113 | the record is complete exactly when all its bytes were read, and the record afterwards is that of its specification function |
| TlsDirectories.ReadCallbacks | debug_remover/include/retdec/pelib/TlsDirectory.h:117-133 | the callbacks read are those of their specification function |
| TlsDirectories.TlsDirectory.constructor | debug_remover/include/retdec/pelib/TlsDirectory.h:26-29 | a new directory has a zero record and no callbacks; the class declares no constructor and leaves `pointerSize` uninitialised, so pointer size 0 is the model's choice |
| TlsDirectories.TlsDirectory.Read | debug_remover/include/retdec/pelib/TlsDirectory.h:75-136 | ERROR_NONE exactly when rva + size is below SizeOfImage and the whole record is read; a range past the image changes nothing; the pointer size and the record follow the image; callbacks are appended only on success |
| TlsDirectories.TlsDirectory.Size | debug_remover/include/retdec/pelib/TlsDirectory.h:172-175 | the intended size is the length of the rebuilt record |
| TlsDirectories.TlsDirectory.Rebuild | debug_remover/include/retdec/pelib/TlsDirectory.h:143-164 | the rebuilt record has the layout of the pointer size and reads back as the record, for the 32-bit layout when the addresses fit |
| TlsDirectories.TlsDirectory.SetStartAddressOfRawData | debug_remover/include/retdec/pelib/TlsDirectory.h:281-284 | only StartAddressOfRawData changes |
| TlsDirectories.TlsDirectory.SetEndAddressOfRawData | debug_remover/include/retdec/pelib/TlsDirectory.h:290-293 | only EndAddressOfRawData changes |
| TlsDirectories.TlsDirectory.SetAddressOfIndex | debug_remover/include/retdec/pelib/TlsDirectory.h:299-302 | only AddressOfIndex changes |
| TlsDirectories.TlsDirectory.SetAddressOfCallBacks | debug_remover/include/retdec/pelib/TlsDirectory.h:308-311 | only AddressOfCallBacks changes |
| TlsDirectories.TlsDirectory.SetSizeOfZeroFill | debug_remover/include/retdec/pelib/TlsDirectory.h:317-320 | only SizeOfZeroFill changes |
| TlsDirectories.TlsDirectory.SetCharacteristics | debug_remover/include/retdec/pelib/TlsDirectory.h:326-329 | only Characteristics changes |
| TlsDirectories.TlsDirectory.RebuildFollowsImage | debug_remover/include/retdec/pelib/TlsDirectory.h:143-164 | with the pointer size read stores, the intended rebuild writes 24 bytes for a 32-bit image and 40 for a 64-bit one |
| TlsDirectories.DecodeTls64 | debug_remover/include/retdec/pelib/TlsDirectory.h:110 | the 40-byte 64-bit record read straight into the member |
| TlsDirectories.SlotRva | debug_remover/include/retdec/pelib/TlsDirectory.h:119-131 | the RVA of callback slot k: k pointer steps from the callback array's RVA, each a 32-bit sum |
| TlsDirectories.CallbacksInImage | debug_remover/include/retdec/pelib/TlsDirectory.h:117 | the callback check: ImageBase < AddressOfCallBacks < ImageBase + SizeOfImage, a 64-bit sum |
| TlsDirectories.TlsOutOfImage | debug_remover/include/retdec/pelib/TlsDirectory.h:83 | read's range check: rva + size, a 32-bit sum, at or past SizeOfImage |
| TlsDirectories.SizeAsWritten | debug_remover/include/retdec/pelib/TlsDirectory.h:172-175 | size() as written: 24 only when the stored pointer size is 32, which read never stores |
| TlsDirectories.RebuildAsWritten | debug_remover/include/retdec/pelib/TlsDirectory.h:143-164 | rebuild() as written: the 24-byte record only when the stored pointer size is 32, otherwise the 40-byte one; its length is the as-written size |
| TlsDirectories.RebuildAsWrittenIgnoresBitability | debug_remover/include/retdec/pelib/TlsDirectory.h:145-163 | after a read the as-written rebuild writes the 40-byte record; for a 32-bit image that is not the 24-byte layout |
| TlsDirectories.RecordAfterRead | debug_remover/include/retdec/pelib/TlsDirectory.h:90-113 | the record after read's copy: a 32-bit record is widened only when complete; a 64-bit one is read into the member, so a short read overwrites the bytes it reached |

## Left out

- File and stream I/O: `write_file`, `bin_to_string`, `post_error` (which waits on `getchar`), and the `fs::exists`/`fs::is_empty` checks are outside the model. Their outcomes are the fields of `Redactor.FileFacts`, and the output is the `Written` outcome.
- `PeFileT::loadPeHeaders`, `readDebugDirectory` and `debugDir()` (PeFile.h) are not part of this model. Their outcome is the parameter `Redactor.ParseFacts`.
- InputBuffer and OutputBuffer are not part of this model. Their `>>` and `<<` are little-endian decoding and encoding in `Bytes`, and a read past the end of a buffer yields zero bytes.
- Every directory class's `write()`, and `ImageLoader::Load`, `Save`, `dumpImage` and `saveToFile`: these are file output or stream input.
- The `inStream` seek and read in `DebugDirectory::read` and `SecurityDirectory::read`: the file is given as a byte sequence. The ERROR_OPENING_FILE exit on a bad stream is left out with it.
- The Windows-loader emulation (`captureImageSections`, `captureSectionHeaders`, `captureNtHeaders`, the code-integrity and architecture checks, the constructor's version table) is beyond the modelled core: it imitates operating-system heuristics. The mapped image is a byte sequence of `SizeOfImage` bytes instead.
- `compareWithWindowsMappedImage`, `getMismatchOffset` and `isGoodPagePointer` compare against a live Windows mapping and catch hardware faults.
- `relocateImage`, `processImageRelocations` and `processImageRelocation_IA64_IMM64` are left out: they patch the page-mapped image with platform-specific truncation.
- `retdec::utils::ordLookUp` is a foreign call. The import reader takes it as the parameter `lookUp: OrdinalLookUp`.
- ComHeaderDirectory and ConfigDirectory hold only field getters and setters.
- The `ResourceChild` copy constructor and assignment are raw-pointer memory management. The resource tree is an algebraic datatype, so aliasing between nodes and in-place rewriting of shared children are not captured.
- `std::bad_alloc` handling, the `new[]` null checks and the IAT reader's ERROR_NOT_ENOUGH_SPACE exit are allocation failures, which the model does not have.
- The human-readable text of the loader-error table: `LoaderErrors.ErrorString` gives the table's code names only.
- Getters and setters that only return or store a field are left out: `getPointerToRawData`, `getSizeOfData` and the other DebugDirectory accessors; the import and bound-import accessors and `get/setFunctionHint`; the export getters and setters; the TLS getters; the COFF `getSizeOfStringTable`, `getNumberOfStoredSymbols` and `getSymbol*`; the security `getCertificate`, `getOffset` and `getSize`; the delay-import `begin()`/`end()` iterators and `ordinalNumbersAreValid`/`getNumberOfFunctions`; every `loaderError()`.
- Resource `rebuild`, `write` and the addResource/removeResource/get/set accessors below the type level, and the bookkeeping fields `uiElementRva` and `m_readOffset`.
- Import and bound-import `rebuild`: they only serialise the lists the model holds.
- `Redactor.FindSignature`: the `uint32_t` result of `data.find` and its comparison with `std::string::npos` are modelled as "a match was found". A successful header parse already requires the NT signature, so after a successful parse the "PE" bytes are present (`Redactor.SignatureFoundAtOrBefore`).
- `Redactor.FillWithZeroes` requires the range inside the buffer, since `std::fill` past the end is undefined behaviour. A run whose fill falls outside the buffer ends in the `Undefined` outcome instead of a write.
- `Redactor.NumEntries`: `calcNumberOfEntries` returns a 32-bit count, which is the list's length only while that length fits in 32 bits.
- `Redactor.DirectoryFill`: the record fill covers 28 bytes per entry only while that product fits in 32 bits. Beyond that the model uses the wrapped 32-bit product, as the source does.
- `BoundImports.BoundImportDirectory.CalcNumberOfModules`: the count is stated only when it fits in 32 bits, because the source truncates a `size_t` to `unsigned int`.
- `Exports.ExportDirectory.CalcNumberOfFunctions`: the count is stated only when it fits in 32 bits, for the same reason.
- `IatDirectories.IatDirectory.CalcNumberOfAddresses`: the count is stated only when it fits in 32 bits, for the same reason.
- `IatDirectories.IatDirectory.Size`: it equals the rebuilt table's length only when 4 × count fits in 32 bits.
- `SecurityDirectories.SecurityDirectory.CalcNumberOfCertificates`: the count is stated only when it fits in 32 bits, for the same reason.
- `DebugDirectories.DebugDirectory.CalcNumberOfEntries`: the count is stated only when it fits in 32 bits, for the same reason.
- `DebugDirectories.DebugDirectory.Size`: it equals the rebuilt directory's length only when 28 × count fits in 32 bits; beyond that it is the truncated product, as in the source.
- `Relocations.RelocationsDirectory.CalcNumberOfRelocations`: the block count is stated only when it fits in 32 bits, for the same reason.
- `Relocations.RelocationsDirectory.CalcNumberOfRelocationData`: a block's entry count is stated only when it fits in 32 bits, for the same reason.
- `Imports.ImportDirectory.GetNumberOfFunctions`: an entry's function count is stated only when it fits in 32 bits, for the same reason.
- `Paths`: `std::filesystem::path` is modelled with POSIX semantics, with '/' as the only separator. On Windows the backslash separator and root names such as "C:" change what parent_path(), stem() and extension() return, and the model does not capture that.
- `SecurityDirectories.Certificates`: a certificate header or payload past the end of the table is undefined behaviour in the source. The model's walk stops there with a failed read.
- `Resources.ResourceDirectory.ResourceTypeIdToIndex`: the index is stated only below 2^31 children. Above that, the source's `int` result turns negative (`Resources.AsInt32`).
- `Resources.ResourceDirectory.ResourceTypeNameToIndex`: the index is stated only below 2^31 children, for the same reason.
- `Resources.MakeValidNodeCounts`: the header counts agree with the children only below 2^16 children, since NumberOfNamedEntries and NumberOfIdEntries are 16-bit fields.
- `Resources.ResourceDirectory.MakeValidRoot`: the header counts are stated only below 2^16 children, for the same reason.
- The IAT loader `read`'s trim of an oversized table (IatDirectory.cpp:65-66) cannot happen after the size check at line 61, and the model has no such step.
- `TlsDirectories.TlsDirectory.Rebuild` follows the image's bitness. The source's `rebuild` makes the same `pointerSize == 32` test as `size()` (TlsDirectory.h:145), so it always writes the 40-byte record after a read. That is recorded under Findings, and `TlsDirectories.RebuildAsWritten` models it as written.
- `TlsDirectories.TlsDirectory.constructor`: TlsDirectory.h declares no constructor, so a new object's `pointerSize` is indeterminate until `read`; the model starts it at 0.
- `CoffSymbols.RunFrom` reads an index at or past the end of the string-table buffer as a NUL, which ends the name. The source's loop (CoffSymbolTable.cpp:43) is bounded only by `stringTableSize`, so it can index past the vector. That happens, for instance, when a one-to-three-byte size field gives a size of 1 to 3 while the table stays empty. The model does not capture what that out-of-bounds read returns.
- `CoffSymbols.U32Padded` reads the bytes past the end of the file as zero. The source's `memcpy` at CoffSymbolTable.cpp:108 copies four bytes there when only one to three remain, reading past `fileData` (recorded under Findings).

## Findings

| source | as written | input that shows it | evidently intended | confidence | as-written member | corrected member |
|---|---|---|---|---|---|---|
| debug_remover/src/pelib/ImageLoader.cpp:1249 | the clamp compares the 32-bit sum `fileOffset + bytesToRead` with the file size, and the sum can wrap | offset 10, 0xFFFFFFFF bytes, a 100-byte file: the sum wraps to 9, so no clamp, and 0xFFFFFFFF bytes are copied where 90 remain | clamp to the bytes left whenever the end passes the file size | high, not executed | ImageLoader.FileSpanWrapOverruns | ImageLoader.FileSpan |
| debug_remover/src/pelib/DebugDirectory.cpp:92-96 | the occupied range of the record array starts at `rva` after the loop has advanced it past every record read | a one-entry directory at 0x1000 is recorded as [0x101C, 0x1037] | the range covers the records themselves, [0x1000, 0x101B] | high, not executed | DebugDirectories.DirectoryRangeAsWrittenMisses | DebugDirectories.DirectoryRange |
| debug_remover/include/retdec/pelib/TlsDirectory.h:172-175 | `size()` returns 24 only when `pointerSize == 32`, but `read` stores the pointer size in bytes, 4 or 8; `rebuild()` repeats the test at line 145 (next row) | any 32-bit image: size() is 40 for a 24-byte record | 24 bytes for 4-byte pointers, 40 for 8-byte ones | high, not executed | TlsDirectories.SizeAsWrittenIgnoresBitability | TlsDirectories.TlsSizeFollowsImage |
| debug_remover/include/retdec/pelib/TlsDirectory.h:145-163 | `rebuild()` makes the same `pointerSize == 32` test as `size()`, so after a read it always writes the 40-byte 64-bit record | any 32-bit image: rebuild writes 40 bytes where the directory holds a 24-byte record | the 24-byte record for 4-byte pointers, the 40-byte one for 8-byte ones | high, not executed | TlsDirectories.RebuildAsWrittenIgnoresBitability | TlsDirectories.TlsDirectory.RebuildFollowsImage |
| debug_remover/src/pelib/CoffSymbolTable.cpp:108 | when one to three bytes follow the string-table offset, `memcpy` copies four bytes from that offset, past the end of `fileData` | a ten-byte file whose symbol table ends at offset 8: the copy reads bytes 8 to 11, two of them past the end | copy only the bytes left in the file, the missing ones zero | medium, not executed | CoffSymbols.SizeCopyAsWrittenOverreads | CoffSymbols.U32PaddedPartial |
| debug_remover/src/pelib/SecurityDirectory.cpp:45 | the cut check compares the file size with the unsigned sum `uiOffset + uiSize`, which can wrap | a 0x100-byte file, offset 0xFFFFFFF0, size 0x20: the sum wraps to 0x10 and the check passes | fail with DIGITAL_SIGNATURE_CUT whenever the table ends past the file | high, not executed | SecurityDirectories.CutAsWrittenMissesWrap | SecurityDirectories.SecurityDirectory.Read |
| debug_remover/src/pelib/SecurityDirectory.cpp:89 | `this->size = size;` assigns the member to itself, so the stored size keeps its old value | the first successful read of any non-empty table: getSize() reports 0 | store the table size `uiSize` | high, not executed | SecurityDirectories.StoredSizeAsWrittenIgnoresRead | SecurityDirectories.SecurityDirectory.Read |
| debug_remover/src/pelib/RelocationsDirectory.cpp:129-135 | a HIGHADJ entry advances the cursor over its parameter slot, but entries are still taken as `typeAndOffsets[i]`, so the parameter is stored as an entry and the cursor ends two bytes past the block | a 12-byte block holding HIGHADJ 0x4000 and parameter 0x1234, then a block at 0x2000: the as-written parse stores [0x4000, 0x1234] and loses the second block | the parameter slot is consumed, and the walk goes on at the next block header | medium, not executed | Relocations.HighAdjLosesNextBlock | Relocations.HighAdjKeepsNextBlock |
| debug_remover/src/pelib/ExportDirectory.cpp:193 | the ordinal table is sized by the named functions only, but lines 238-244 also write an ordinal for each unnamed function with an address | one unnamed function with an address and a one-letter file name: the Name field is 44, while the name is written at 46 | the Name field points at the file name | high, not executed | ExportLayout.RebuildAsWrittenMisplacesName | ExportLayout.RebuildNameFieldIsName |
| debug_remover/include/retdec/pelib/ImportDirectory.h:661-666 | the comment asks for the end of a DLL name's range to be aligned to 2, but an even end is bumped to the odd address after it | a 6-byte name at 0x1000 is recorded up to 0x1007, a 7-byte one up to 0x1009 | round the end up to even, as the function names at lines 732-741 do | medium, not executed | Imports.NameRangeAsWrittenEndsOdd | Imports.NameRange |
| debug_remover/src/pelib/ResourceDirectory.cpp:1238-1239 | removing a resource type sets the named or ID count to the number of all children left | a root with one named and two ID types loses an ID type: the header declares 3 entries for 2 children | recount the children of the removed child's kind | high, not executed | Resources.RemoveChildAsWrittenMiscounts | Resources.RemoveChildKeepsCounts |
