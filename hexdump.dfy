/**
 * A hex dumper: a byte buffer is cut into rows of `cols` bytes, and each row
 * is rendered as its starting offset, a field of two-digit lowercase hex
 * groups and a field of printable characters. The rows are what the library
 * hands, one by one and in order, to the caller's callback; here they are
 * returned as a sequence.
 */
module Hexdump {

  /** An unsigned 8-bit value (`u8`). */
  newtype byte = x: int | 0 <= x < 256

  /**
   * The dumper's configuration: the number of bytes per row and a base
   * offset that the first row's offset starts from. Both are `usize` in the
   * library; here they are unbounded.
   */
  datatype Config = Config(cols: nat, offs: nat)

  /** One row as handed to the callback: offset, hex field, ascii field. */
  datatype Row = Row(offset: nat, hex: string, ascii: string)

  /** `Config::default()`: sixteen columns, base offset zero. */
  function DefaultConfig(): (cfg: Config)
    ensures cfg.cols == 16 && cfg.offs == 0
  {
    Config(16, 0)
  }

  // ---------------------------------------------------------------------
  // Rendering one byte
  // ---------------------------------------------------------------------

  /** True of the characters a lowercase hexadecimal digit can be. */
  predicate IsLowerHexDigit(c: char) {
    '0' <= c <= '9' || 'a' <= c <= 'f'
  }

  /** The lowercase hexadecimal digit of a value below sixteen. */
  function HexDigit(d: nat): (c: char)
    requires d < 16
    ensures IsLowerHexDigit(c)
  {
    if d < 10 then ('0' as int + d) as char else ('a' as int + d - 10) as char
  }

  /** `format!("{:02x}", b)`: two lowercase hex digits, high nibble first. */
  function HexByte(b: byte): (s: string)
    ensures |s| == 2 && IsLowerHexDigit(s[0]) && IsLowerHexDigit(s[1])
  {
    [HexDigit(b as int / 16), HexDigit(b as int % 16)]
  }

  /** True of the bytes the ascii field shows as themselves: 0x20 through 0x7e. */
  predicate IsPrintable(b: byte) {
    0x20 <= b <= 0x7e
  }

  /** The ascii-field character of one byte: the byte itself if printable, `.` otherwise. */
  function AsciiChar(b: byte): (c: char)
    ensures IsPrintable(b) ==> c as int == b as int
    ensures !IsPrintable(b) ==> c == '.'
  {
    if b < 0x20 || b > 0x7e then '.' else (b as int) as char
  }

  // ---------------------------------------------------------------------
  // Standard-library string helpers the renderer relies on
  // ---------------------------------------------------------------------

  /** `n` copies of `x` (`iter::repeat(x).take(n)`, `str::repeat`). */
  function Repeat<T>(x: T, n: nat): (r: seq<T>)
    ensures |r| == n
    ensures forall i :: 0 <= i < n ==> r[i] == x
  {
    if n == 0 then [] else [x] + Repeat(x, n - 1)
  }

  /** `[String]::join(sep)`: the items with `sep` between neighbours. */
  function Join(items: seq<string>, sep: string): string
    decreases |items|
  {
    if |items| == 0 then ""
    else if |items| == 1 then items[0]
    else items[0] + sep + Join(items[1..], sep)
  }

  // ---------------------------------------------------------------------
  // Specification of the rows
  // ---------------------------------------------------------------------

  /** The hex groups of the real bytes of a chunk, one per byte. */
  function HexGroups(chunk: seq<byte>): (r: seq<string>)
    ensures |r| == |chunk|
  {
    seq(|chunk|, i requires 0 <= i < |chunk| => HexByte(chunk[i]))
  }

  /** The ascii characters of the real bytes of a chunk, one per byte. */
  function AsciiChars(chunk: seq<byte>): (r: string)
    ensures |r| == |chunk|
  {
    seq(|chunk|, i requires 0 <= i < |chunk| => AsciiChar(chunk[i]))
  }

  /**
   * The hex field of a row: one group per column, the chunk's bytes first and
   * a two-space group for every missing byte, joined by single spaces.
   */
  function HexField(chunk: seq<byte>, cols: nat): string
    requires |chunk| <= cols
  {
    Join(HexGroups(chunk) + Repeat("  ", cols - |chunk|), " ")
  }

  /** The ascii field of a row: the chunk's characters, then a space per missing byte. */
  function AsciiField(chunk: seq<byte>, cols: nat): string
    requires |chunk| <= cols
  {
    AsciiChars(chunk) + Repeat(' ', cols - |chunk|)
  }

  /** The row a chunk becomes when it starts at `offset`. */
  function RowOf(offset: nat, chunk: seq<byte>, cols: nat): Row
    requires |chunk| <= cols
  {
    Row(offset, HexField(chunk, cols), AsciiField(chunk, cols))
  }

  /**
   * `buf.chunks(cols)`: consecutive pieces of `cols` bytes, the last one
   * possibly shorter; never an empty piece.
   */
  function Chunks(buf: seq<byte>, cols: nat): (r: seq<seq<byte>>)
    requires cols > 0
    ensures forall i :: 0 <= i < |r| ==> 0 < |r[i]| <= cols
    decreases |buf|
  {
    if |buf| == 0 then []
    else if |buf| <= cols then [buf]
    else [buf[..cols]] + Chunks(buf[cols..], cols)
  }

  /**
   * The rows of `buf`, the first starting at `offset`: the first row renders
   * the first `cols` bytes (or all of them, if fewer), and the rest follow
   * from where those bytes end.
   */
  function Rows(buf: seq<byte>, cols: nat, offset: nat): seq<Row>
    requires cols > 0
    decreases |buf|
  {
    if |buf| == 0 then []
    else
      var end := if cols <= |buf| then cols else |buf|;
      [RowOf(offset, buf[..end], cols)] + Rows(buf[end..], cols, offset + end)
  }

  /** Every row the dumper emits for `buf` under `cfg`, in emission order. */
  function Dump(cfg: Config, buf: seq<byte>): seq<Row>
  {
    if cfg.cols == 0 then [] else Rows(buf, cfg.cols, cfg.offs)
  }

  // ---------------------------------------------------------------------
  // The renderer
  // ---------------------------------------------------------------------

  /**
   * The body of `hexdump_buf`'s chunk loop: renders one chunk byte by byte,
   * advancing the running offset once per real byte, then pads both fields to
   * `cols` columns and joins the hex groups.
   */
  method RenderRow(block: seq<byte>, cols: nat, offset: nat) returns (row: Row, next: nat)
    requires 0 < |block| <= cols
    ensures row == RowOf(offset, block, cols)
    ensures next == offset + |block|
  {
    next := offset;
    var ascii: string := "";
    var vals: seq<string> := [];
    var i := 0;
    while i < |block|
      invariant 0 <= i <= |block|
      invariant next == offset + i
      invariant |vals| == i && forall j :: 0 <= j < i ==> vals[j] == HexByte(block[j])
      invariant |ascii| == i && forall j :: 0 <= j < i ==> ascii[j] == AsciiChar(block[j])
    {
      var b := block[i];
      vals := vals + [HexByte(b)];
      if b < 0x20 || b > 0x7e {
        ascii := ascii + ['.'];
      } else {
        ascii := ascii + [(b as int) as char];
      }
      next := next + 1;
      i := i + 1;
    }
    assert vals == HexGroups(block);
    assert ascii == AsciiChars(block);
    var rem := cols - |vals|;
    if rem > 0 {
      vals := vals + Repeat("  ", rem);
      ascii := ascii + Repeat(' ', rem);
    } else {
      assert vals == HexGroups(block) + Repeat("  ", rem);
      assert ascii == AsciiChars(block) + Repeat(' ', rem);
    }
    var hexStr := Join(vals, " ");
    row := Row(offset, hexStr, ascii);
  }

  /**
   * `hexdump_buf`: walks the buffer chunk by chunk, keeping a running offset
   * that starts at the base offset, and emits one row per chunk; with zero
   * columns it emits nothing. The rows passed to the callback are returned in
   * the order the callback would see them.
   */
  method HexdumpBuf(cfg: Config, buf: seq<byte>) returns (rows: seq<Row>)
    ensures rows == Dump(cfg, buf)
  {
    rows := [];
    if cfg.cols == 0 {
      return;
    }
    var cols := cfg.cols;
    var offset := cfg.offs;
    var start := 0;
    assert buf[start..] == buf;
    ghost var all := Dump(cfg, buf);
    while start < |buf|
      invariant 0 <= start <= |buf|
      invariant offset == cfg.offs + start
      invariant rows + Rows(buf[start..], cols, offset) == all
      decreases |buf| - start
    {
      var end := if start + cols <= |buf| then start + cols else |buf|;
      var block := buf[start..end];
      var row, next := RenderRow(block, cols, offset);
      EmitChunk(buf, start, end, cols, offset, row, next, rows, all);
      rows := rows + [row];
      offset := next;
      start := end;
    }
  }

  /**
   * Emitting the row of the chunk at `start` leaves exactly the rows of the
   * rest of the buffer, which start where that chunk's bytes end.
   */
  lemma EmitChunk(buf: seq<byte>, start: nat, end: nat, cols: nat, offset: nat, row: Row, next: nat,
                  done: seq<Row>, all: seq<Row>)
    requires cols > 0 && start < |buf|
    requires end == if start + cols <= |buf| then start + cols else |buf|
    requires row == RowOf(offset, buf[start..end], cols) && next == offset + (end - start)
    requires done + Rows(buf[start..], cols, offset) == all
    ensures done + [row] + Rows(buf[end..], cols, next) == all
  {
    var rest := buf[start..];
    assert rest[..end - start] == buf[start..end];
    assert rest[end - start..] == buf[end..];
    var later := Rows(buf[end..], cols, next);
    assert Rows(rest, cols, offset) == [row] + later;
    assert done + [row] + later == done + ([row] + later);
  }

  /**
   * `hexdump`: dumps the in-memory bytes of a value. How a value is viewed as
   * bytes depends on the host's layout, so the view is the caller's `view`.
   */
  method Hexdump<T>(cfg: Config, value: T, view: T -> seq<byte>) returns (rows: seq<Row>)
    ensures rows == Dump(cfg, view(value))
  {
    rows := HexdumpBuf(cfg, view(value));
  }
}
