# dbgtools-hexdump, modelled in Dafny

`dbgtools-hexdump` is a small Rust library that turns a byte buffer into
the lines of a hex dump and hands each line to a caller-supplied closure.
A `Config` gives the number of columns (bytes per line, 16 by default) and
a base offset (0 by default). `hexdump_buf` cuts the buffer into chunks of
`cols` bytes and calls the closure once per chunk with three things:

- the offset of the chunk's first byte, counted from the base offset;
- a hex field: one two-digit lowercase group per byte, two spaces for each
  column the short last chunk lacks, all joined by single spaces;
- an ascii field: each byte as itself when it lies in 0x20..=0x7e and `.`
  otherwise, then one space per missing column.

With zero columns it emits nothing. `hexdump` dumps the in-memory bytes of
an arbitrary value by viewing it as a byte slice and calling `hexdump_buf`.

The model has two modules:

- `Hexdump` (`hexdump.dfy`) holds the data model (`byte`, `Config`, `Row`)
  and the rendering helpers. It also holds the specification functions:
  `Chunks` for the partition, `Rows` and `Dump` for the emitted rows, and
  `HexField`, `AsciiField` and `RowOf` for one row. The renderer is
  imperative, like the source. `RenderRow` is the loop over one chunk's
  bytes and `HexdumpBuf` is the loop over the chunks; each is proved equal
  to the specification. The sequence of closure calls is modelled as the
  returned sequence of `Row`s, in call order.
- `HexdumpProperties` (`properties.dfy`) proves what the rows promise:
  - the chunks partition the buffer;
  - there is one row per chunk;
  - offsets start at the base and advance by the bytes consumed;
  - both fields have their exact layout, padding included;
  - a decoder reading the hex fields back recovers the buffer;
  - the library's own example, worked out concretely.

## Model

| member | source | states |
|---|---|---|
| Hexdump.DefaultConfig | src/lib.rs:72-76 | The default configuration has 16 columns and base offset 0. |
| Hexdump.HexByte | src/lib.rs:143 | A byte renders as exactly two lowercase hex digits. `HexByteRoundTrip` pins down their value. |
| Hexdump.AsciiChar | src/lib.rs:145-149 | A byte in 0x20..=0x7e shows as the character with the same code. Any other byte shows as `.`. |
| Hexdump.Repeat | src/lib.rs:156-159 | `n` copies of the item: length `n`, and every position holds the item. |
| Hexdump.Chunks | src/lib.rs:136 | Every chunk of a positive column count holds between 1 and `cols` bytes. |
| Hexdump.RenderRow | src/lib.rs:137-163 | The per-chunk loop gives the row specified for the chunk: hex groups and ascii characters of its bytes, padded to `cols`, groups joined by spaces. The running offset advances by exactly the chunk's length. |
| Hexdump.HexdumpBuf | src/lib.rs:120-167 | The rows emitted, in order, are exactly `Dump(cfg, buf)`. With zero columns that is no rows. |
| Hexdump.Hexdump | src/lib.rs:96-105 | Dumping a value is dumping its byte view. |
| HexdumpProperties.ChunksPartition | src/lib.rs:136 | There are ceil(\|buf\|/cols) chunks. Each holds 1 to `cols` bytes, and all but the last hold exactly `cols`. Concatenated in order, they are the buffer. |
| HexdumpProperties.RowsRenderChunks | src/lib.rs:136-165 | There is one row per chunk, and row `i` is the rendering of chunk `i`. |
| HexdumpProperties.RowsOffsets | src/lib.rs:132-151 | The first row starts at the given offset. Each later row starts where the previous chunk's bytes end. |
| HexdumpProperties.DumpRows | src/lib.rs:127-167 | Zero columns or an empty buffer give no rows. Otherwise there are ceil(\|buf\|/cols) rows, row `i` renders chunk `i`, the first offset is `offs`, and offsets advance by the previous chunk's length. |
| HexdumpProperties.DumpOffsets | src/lib.rs:132-151 | Row `i` starts at `offs + i*cols`, and every later row starts at a strictly larger offset. |
| HexdumpProperties.HexFieldShape | src/lib.rs:141-163 | A hex field is `3*cols-1` characters. Group `j` is the hex of byte `j` for real bytes and two spaces for missing ones. Neighbouring groups are separated by one space. |
| HexdumpProperties.AsciiFieldShape | src/lib.rs:139-160 | An ascii field is `cols` characters. Printable bytes show as themselves, other bytes as `.`, and missing bytes as spaces. |
| HexdumpProperties.DumpFieldWidths | src/lib.rs:154-163 | Every row has full-width fields, the short last row included. |
| HexdumpProperties.DigitValue | src/lib.rs:143 | A character has a digit value exactly when it is a lowercase hex digit, and that value is below 16. |
| HexdumpProperties.HexByteRoundTrip | src/lib.rs:143 | Parsing a byte's two-digit group gives the byte back. A padding group parses as no byte. |
| HexdumpProperties.HexFieldRoundTrip | src/lib.rs:141-163 | Reading a row's hex field back, group by group until the padding, gives the chunk's bytes. |
| HexdumpProperties.DumpRoundTrip | src/lib.rs:136-165 | For any positive column count, reading back the hex fields of all rows in order gives the whole buffer: no byte is lost, duplicated or reordered. |
| HexdumpProperties.DefaultConfigExample | examples/dumpslice.rs:11-15 | Bytes 1..8 under the default configuration give one row at offset 0. Its hex field is the eight groups `01`..`08` followed by eight padding groups, and its ascii field is eight dots and eight spaces. |
| HexdumpProperties.FourColumnExample | src/lib.rs:136-161 | Ten bytes at four columns give rows at offsets 0, 4 and 8. The first two are full chunks. The last row has two real groups then two padding groups, and its ascii field ends in two spaces. |

## Left out

- `asbuf`: it reinterprets a value's memory as bytes through an unsafe raw-pointer cast, and the layout depends on the host. `hexdump` therefore takes the byte view as a parameter `view`.
- The `hello`/`world` dump in `examples/dumpslice.rs` and the struct dumps in `examples/dumpstructs.rs` depend on memory layout through `asbuf`, so they are not modelled.
- The closure `f` is modelled by the sequence of arguments it would receive, in order. What the closure does with them, such as printing with `{:08x}`, is outside the library.
- The `Borrow<Config>` and `Fn` generic bounds are not modelled. `Config` is passed by value.
- Hexdump.HexdumpBuf: offsets are unbounded `nat`s instead of `usize`. The overflow of `offset += 1` past `usize::MAX` is not modelled; it is a panic in debug builds and wrap-around in release builds. A base offset near the top of the address space would reach it, and the same applies to `Hexdump.RenderRow` and `HexdumpProperties.DumpOffsets`.
- Hexdump.RenderRow: it builds a fresh ascii string for each chunk. The source instead reuses one `String` buffer and clears it, which affects allocation only.
- `format!`, `str::repeat`, `iter::repeat`, `Vec::extend` and `[String]::join` are modelled by the functions `HexByte`, `Repeat` and `Join`, not by their library implementations.
