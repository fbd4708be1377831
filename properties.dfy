/**
 * What the rows of a hex dump promise: how the buffer is cut into chunks,
 * how many rows there are, how their offsets advance, the exact shape of
 * the hex and ascii fields, and that the hex fields give the buffer back.
 */
module HexdumpProperties {
  import opened Hexdump

  datatype Option<T> = None | Some(value: T)

  // ---------------------------------------------------------------------
  // Chunking
  // ---------------------------------------------------------------------

  /** The chunks laid end to end. */
  function Flatten(chunks: seq<seq<byte>>): seq<byte>
  {
    if |chunks| == 0 then [] else chunks[0] + Flatten(chunks[1..])
  }

  /** Rounded-up division: the number of rows `n` bytes need at `cols` per row. */
  function CeilDiv(n: nat, cols: nat): nat
    requires cols > 0
  {
    (n + cols - 1) / cols
  }

  /** `k * c` is at least `c` for positive `k`, at most `-c` for negative `k`. */
  lemma MulBounds(k: int, c: int)
    requires c >= 0
    ensures k >= 1 ==> k * c >= c
    ensures k <= -1 ==> k * c <= -c
  {
    if k >= 1 {
      assert k * c == (k - 1) * c + c;
    } else if k <= -1 {
      assert k * c == (k + 1) * c - c;
    }
  }

  /** Quotient and remainder are unique. */
  lemma DivUnique(x: int, c: int, q: int, r: int)
    requires c > 0 && 0 <= r < c && x == q * c + r
    ensures x / c == q
  {
    var q', r' := x / c, x % c;
    assert (q - q') * c == r' - r;
    MulBounds(q - q', c);
  }

  /** A buffer longer than one row needs one row more than what follows its first row. */
  lemma CeilDivStep(n: nat, cols: nat)
    requires 0 < cols < n
    ensures CeilDiv(n, cols) == CeilDiv(n - cols, cols) + 1
  {
    var m := n - 1;
    DivUnique(m + cols, cols, m / cols + 1, m % cols);
  }

  /** A buffer of between one and `cols` bytes needs exactly one row. */
  lemma CeilDivOne(n: nat, cols: nat)
    requires 0 < n <= cols
    ensures CeilDiv(n, cols) == 1
  {
  }

  /** There are ceil(|buf| / cols) chunks. */
  lemma {:induction false} ChunksCount(buf: seq<byte>, cols: nat)
    requires cols > 0
    ensures |Chunks(buf, cols)| == CeilDiv(|buf|, cols)
    decreases |buf|
  {
    if |buf| > cols {
      ChunksCount(buf[cols..], cols);
      CeilDivStep(|buf|, cols);
    } else if |buf| > 0 {
      CeilDivOne(|buf|, cols);
    }
  }

  /** Every chunk but the last holds exactly `cols` bytes. */
  lemma {:induction false} ChunksFull(buf: seq<byte>, cols: nat)
    requires cols > 0
    ensures forall i :: 0 <= i < |Chunks(buf, cols)| - 1 ==> |Chunks(buf, cols)[i]| == cols
    decreases |buf|
  {
    if |buf| > cols {
      var ch := Chunks(buf, cols);
      var tail := Chunks(buf[cols..], cols);
      ChunksFull(buf[cols..], cols);
      assert ch == [buf[..cols]] + tail;
      forall i | 0 < i < |ch| - 1
        ensures |ch[i]| == cols
      {
        assert ch[i] == tail[i - 1];
      }
    }
  }

  /** Laid end to end, in order, the chunks are the buffer. */
  lemma {:induction false} ChunksFlatten(buf: seq<byte>, cols: nat)
    requires cols > 0
    ensures Flatten(Chunks(buf, cols)) == buf
    decreases |buf|
  {
    var ch := Chunks(buf, cols);
    if |buf| > cols {
      ChunksFlatten(buf[cols..], cols);
      assert ch[1..] == Chunks(buf[cols..], cols);
      assert buf == buf[..cols] + buf[cols..];
    } else if |buf| > 0 {
      assert ch[1..] == [];
      assert Flatten(ch) == buf + [];
    }
  }

  /**
   * For any buffer and any positive column count: each chunk holds between 1
   * and `cols` bytes, every chunk but the last holds exactly `cols`, there
   * are ceil(|buf| / cols) of them, and laid end to end they are the buffer,
   * in order.
   */
  lemma ChunksPartition(buf: seq<byte>, cols: nat)
    requires cols > 0
    ensures |Chunks(buf, cols)| == CeilDiv(|buf|, cols)
    ensures forall i :: 0 <= i < |Chunks(buf, cols)| ==> 0 < |Chunks(buf, cols)[i]| <= cols
    ensures forall i :: 0 <= i < |Chunks(buf, cols)| - 1 ==> |Chunks(buf, cols)[i]| == cols
    ensures Flatten(Chunks(buf, cols)) == buf
  {
    ChunksCount(buf, cols);
    ChunksFull(buf, cols);
    ChunksFlatten(buf, cols);
  }

  // ---------------------------------------------------------------------
  // Rows
  // ---------------------------------------------------------------------

  /** A buffer longer than one row: its first row, then the rows of the rest. */
  lemma RowsUnfold(buf: seq<byte>, cols: nat, offset: nat)
    requires 0 < cols < |buf|
    ensures Rows(buf, cols, offset) == [RowOf(offset, buf[..cols], cols)] + Rows(buf[cols..], cols, offset + cols)
    ensures Chunks(buf, cols) == [buf[..cols]] + Chunks(buf[cols..], cols)
  {
  }

  /** There is one row per chunk, and row `i` renders chunk `i`. */
  lemma {:induction false} RowsRenderChunks(buf: seq<byte>, cols: nat, offset: nat)
    requires cols > 0
    ensures |Rows(buf, cols, offset)| == |Chunks(buf, cols)|
    ensures forall i :: 0 <= i < |Rows(buf, cols, offset)| ==>
      Rows(buf, cols, offset)[i] == RowOf(Rows(buf, cols, offset)[i].offset, Chunks(buf, cols)[i], cols)
    decreases |buf|
  {
    if 0 < |buf| <= cols {
      assert buf[..|buf|] == buf;
    } else if |buf| > cols {
      var rows := Rows(buf, cols, offset);
      var ch := Chunks(buf, cols);
      var later := Rows(buf[cols..], cols, offset + cols);
      var tail := Chunks(buf[cols..], cols);
      RowsUnfold(buf, cols, offset);
      RowsRenderChunks(buf[cols..], cols, offset + cols);
      forall i | 0 < i < |rows|
        ensures rows[i] == RowOf(rows[i].offset, ch[i], cols)
      {
        assert rows[i] == later[i - 1] && ch[i] == tail[i - 1];
      }
    }
  }

  /**
   * The first row starts at the given offset and each later row where the
   * previous chunk's real bytes end.
   */
  lemma {:induction false} RowsOffsets(buf: seq<byte>, cols: nat, offset: nat)
    requires cols > 0
    ensures |Rows(buf, cols, offset)| == |Chunks(buf, cols)|
    ensures |buf| > 0 ==> Rows(buf, cols, offset)[0].offset == offset
    ensures forall i :: 0 <= i < |Rows(buf, cols, offset)| - 1 ==>
      Rows(buf, cols, offset)[i + 1].offset == Rows(buf, cols, offset)[i].offset + |Chunks(buf, cols)[i]|
    decreases |buf|
  {
    if |buf| > cols {
      var rows := Rows(buf, cols, offset);
      var ch := Chunks(buf, cols);
      var later := Rows(buf[cols..], cols, offset + cols);
      var tail := Chunks(buf[cols..], cols);
      RowsUnfold(buf, cols, offset);
      RowsOffsets(buf[cols..], cols, offset + cols);
      forall i | 0 < i < |rows| - 1
        ensures rows[i + 1].offset == rows[i].offset + |ch[i]|
      {
        assert rows[i] == later[i - 1] && rows[i + 1] == later[i] && ch[i] == tail[i - 1];
      }
    }
  }

  /**
   * With zero columns nothing is emitted, whatever the buffer, and an empty
   * buffer emits nothing either. Otherwise there are ceil(|buf| / cols)
   * rows, one per chunk, row `i` renders chunk `i`, the first row starts at
   * the base offset and each later row where the previous row's real bytes
   * end.
   */
  lemma DumpRows(cfg: Config, buf: seq<byte>)
    ensures cfg.cols == 0 ==> Dump(cfg, buf) == []
    ensures |buf| == 0 ==> Dump(cfg, buf) == []
    ensures cfg.cols > 0 ==> |Dump(cfg, buf)| == |Chunks(buf, cfg.cols)| == CeilDiv(|buf|, cfg.cols)
    ensures cfg.cols > 0 && |buf| > 0 ==> Dump(cfg, buf)[0].offset == cfg.offs
    ensures cfg.cols > 0 ==> forall i :: 0 <= i < |Dump(cfg, buf)| ==>
      Dump(cfg, buf)[i] == RowOf(Dump(cfg, buf)[i].offset, Chunks(buf, cfg.cols)[i], cfg.cols)
    ensures cfg.cols > 0 ==> forall i :: 0 <= i < |Dump(cfg, buf)| - 1 ==>
      Dump(cfg, buf)[i + 1].offset == Dump(cfg, buf)[i].offset + |Chunks(buf, cfg.cols)[i]|
  {
    if cfg.cols > 0 {
      ChunksCount(buf, cfg.cols);
      RowsRenderChunks(buf, cfg.cols, cfg.offs);
      RowsOffsets(buf, cfg.cols, cfg.offs);
    }
  }

  /** Offsets that grow from each row to the next grow from any row to any later one. */
  lemma {:induction false} OffsetsIncrease(rows: seq<Row>, i: nat, j: nat)
    requires forall k :: 0 <= k < |rows| - 1 ==> rows[k].offset < rows[k + 1].offset
    requires i < j < |rows|
    ensures rows[i].offset < rows[j].offset
    decreases j - i
  {
    if i + 1 < j {
      OffsetsIncrease(rows, i + 1, j);
    }
  }

  /** Row `i` starts at `offs + i * cols`, and every later row starts further on. */
  lemma {:induction false} DumpOffsets(cfg: Config, buf: seq<byte>, i: nat)
    requires cfg.cols > 0 && i < |Dump(cfg, buf)|
    ensures Dump(cfg, buf)[i].offset == cfg.offs + i * cfg.cols
    ensures forall j :: i < j < |Dump(cfg, buf)| ==> Dump(cfg, buf)[i].offset < Dump(cfg, buf)[j].offset
  {
    var rows := Dump(cfg, buf);
    DumpRows(cfg, buf);
    ChunksPartition(buf, cfg.cols);
    if i > 0 {
      DumpOffsets(cfg, buf, i - 1);
      assert rows[i].offset == rows[i - 1].offset + cfg.cols;
      assert (i - 1) * cfg.cols + cfg.cols == i * cfg.cols;
    }
    forall j | i < j < |rows|
      ensures rows[i].offset < rows[j].offset
    {
      OffsetsIncrease(rows, i, j);
    }
  }

  // ---------------------------------------------------------------------
  // Field shapes
  // ---------------------------------------------------------------------

  /** Group `j` of a hex field: the two characters at 3*j. */
  function Group(hex: string, j: nat): string
    requires 3 * j + 2 <= |hex|
  {
    hex[3 * j..3 * j + 2]
  }

  /** The character after group `j` of a hex field. */
  function Separator(hex: string, j: nat): char
    requires 3 * j + 2 < |hex|
  {
    hex[3 * j + 2]
  }

  /** Joining two-character items with single spaces puts item `j` at 3*j. */
  lemma {:induction false} JoinPairs(items: seq<string>)
    requires |items| > 0
    requires forall i :: 0 <= i < |items| ==> |items[i]| == 2
    ensures |Join(items, " ")| == 3 * |items| - 1
    ensures forall j :: 0 <= j < |items| ==> Group(Join(items, " "), j) == items[j]
    ensures forall j :: 0 <= j < |items| - 1 ==> Separator(Join(items, " "), j) == ' '
  {
    if |items| > 1 {
      var rest := Join(items[1..], " ");
      JoinPairs(items[1..]);
      var s := Join(items, " ");
      assert s == items[0] + " " + rest;
      forall j | 0 < j < |items|
        ensures Group(s, j) == items[j]
      {
        assert Group(s, j) == Group(rest, j - 1);
      }
      forall j | 0 < j < |items| - 1
        ensures Separator(s, j) == ' '
      {
        assert Separator(s, j) == Separator(rest, j - 1);
      }
    }
  }

  /**
   * The hex field of a chunk of `k <= cols` bytes holds `cols` groups in
   * 3*cols - 1 characters: group j < k is the two-digit lowercase hex of
   * byte j, every later group is two spaces, and neighbouring groups are
   * separated by one space.
   */
  lemma HexFieldShape(chunk: seq<byte>, cols: nat)
    requires 0 < cols && |chunk| <= cols
    ensures |HexField(chunk, cols)| == 3 * cols - 1
    ensures forall j :: 0 <= j < |chunk| ==> Group(HexField(chunk, cols), j) == HexByte(chunk[j])
    ensures forall j :: |chunk| <= j < cols ==> Group(HexField(chunk, cols), j) == "  "
    ensures forall j :: 0 <= j < cols - 1 ==> Separator(HexField(chunk, cols), j) == ' '
  {
    var items := HexGroups(chunk) + Repeat("  ", cols - |chunk|);
    JoinPairs(items);
    forall j | |chunk| <= j < cols
      ensures items[j] == "  "
    {
    }
  }

  /**
   * The ascii field of a chunk of `k <= cols` bytes is `cols` characters
   * long: position i < k is byte i's own character when it is printable and
   * `.` when it is not, every later position a space.
   */
  lemma AsciiFieldShape(chunk: seq<byte>, cols: nat)
    requires |chunk| <= cols
    ensures |AsciiField(chunk, cols)| == cols
    ensures forall i :: 0 <= i < |chunk| && IsPrintable(chunk[i]) ==>
      AsciiField(chunk, cols)[i] as int == chunk[i] as int
    ensures forall i :: 0 <= i < |chunk| && !IsPrintable(chunk[i]) ==> AsciiField(chunk, cols)[i] == '.'
    ensures forall i :: |chunk| <= i < cols ==> AsciiField(chunk, cols)[i] == ' '
  {
  }

  /** Every emitted row, the short last one included, has fields of full width. */
  lemma DumpFieldWidths(cfg: Config, buf: seq<byte>)
    ensures forall i :: 0 <= i < |Dump(cfg, buf)| ==>
      |Dump(cfg, buf)[i].hex| == 3 * cfg.cols - 1 && |Dump(cfg, buf)[i].ascii| == cfg.cols
  {
    if cfg.cols > 0 {
      var rows := Dump(cfg, buf);
      var ch := Chunks(buf, cfg.cols);
      DumpRows(cfg, buf);
      forall i | 0 <= i < |rows|
        ensures |rows[i].hex| == 3 * cfg.cols - 1 && |rows[i].ascii| == cfg.cols
      {
        HexFieldShape(ch[i], cfg.cols);
        AsciiFieldShape(ch[i], cfg.cols);
      }
    }
  }

  // ---------------------------------------------------------------------
  // Reading the hex fields back
  // ---------------------------------------------------------------------

  /** The value of a lowercase hexadecimal digit, if `c` is one. */
  function DigitValue(c: char): (r: Option<nat>)
    ensures r.Some? <==> IsLowerHexDigit(c)
    ensures r.Some? ==> r.value < 16
  {
    if '0' <= c <= '9' then Some(c as int - '0' as int)
    else if 'a' <= c <= 'f' then Some(c as int - 'a' as int + 10)
    else None
  }

  /** The byte a two-digit lowercase hex group denotes, if it is one. */
  function ParseHexByte(s: string): Option<byte>
  {
    if |s| != 2 then None
    else match (DigitValue(s[0]), DigitValue(s[1]))
      case (Some(hi), Some(lo)) => Some((16 * hi + lo) as byte)
      case _ => None
  }

  /** Reading a byte's hex group gives the byte back; a padding group reads as no byte. */
  lemma HexByteRoundTrip(b: byte)
    ensures ParseHexByte(HexByte(b)) == Some(b)
    ensures ParseHexByte("  ") == None
  {
  }

  /** The bytes of a hex field from group `j` on, up to the first padding group. */
  function DecodeGroups(hex: string, cols: nat, j: nat): seq<byte>
    decreases cols - j
  {
    if j >= cols || |hex| < 3 * j + 2 then []
    else match ParseHexByte(Group(hex, j))
      case None => []
      case Some(b) => [b] + DecodeGroups(hex, cols, j + 1)
  }

  /** Reading a hex field back from group `j` on gives the chunk's bytes from `j` on. */
  lemma {:induction false} HexFieldRoundTrip(chunk: seq<byte>, cols: nat, j: nat)
    requires 0 < cols && |chunk| <= cols && j <= |chunk|
    ensures DecodeGroups(HexField(chunk, cols), cols, j) == chunk[j..]
    decreases |chunk| - j
  {
    HexFieldShape(chunk, cols);
    if j < |chunk| {
      HexByteRoundTrip(chunk[j]);
      HexFieldRoundTrip(chunk, cols, j + 1);
      assert chunk[j..] == [chunk[j]] + chunk[j + 1..];
    } else if j < cols {
      HexByteRoundTrip(0);
    }
  }

  /** The bytes read back from the hex fields of all rows, in row order. */
  function DecodeDump(rows: seq<Row>, cols: nat): seq<byte>
  {
    if |rows| == 0 then [] else DecodeGroups(rows[0].hex, cols, 0) + DecodeDump(rows[1..], cols)
  }

  /** Rows whose hex fields read back as the given chunks read back as the chunks laid end to end. */
  lemma {:induction false} DecodeDumpFlatten(rows: seq<Row>, chunks: seq<seq<byte>>, cols: nat)
    requires |rows| == |chunks|
    requires forall i :: 0 <= i < |rows| ==> DecodeGroups(rows[i].hex, cols, 0) == chunks[i]
    ensures DecodeDump(rows, cols) == Flatten(chunks)
  {
    if |rows| > 0 {
      DecodeDumpFlatten(rows[1..], chunks[1..], cols);
    }
  }

  /**
   * Nothing is lost and nothing is reordered: for any positive column count,
   * reading the hex fields of the emitted rows back in order gives the
   * buffer itself.
   */
  lemma DumpRoundTrip(cfg: Config, buf: seq<byte>)
    requires cfg.cols > 0
    ensures DecodeDump(Dump(cfg, buf), cfg.cols) == buf
  {
    var rows := Dump(cfg, buf);
    var ch := Chunks(buf, cfg.cols);
    DumpRows(cfg, buf);
    forall i | 0 <= i < |rows|
      ensures DecodeGroups(rows[i].hex, cfg.cols, 0) == ch[i]
    {
      HexFieldRoundTrip(ch[i], cfg.cols, 0);
      assert ch[i][0..] == ch[i];
    }
    DecodeDumpFlatten(rows, ch, cfg.cols);
    ChunksFlatten(buf, cfg.cols);
  }

  // ---------------------------------------------------------------------
  // Examples
  // ---------------------------------------------------------------------

  /** Joining two non-empty lists is joining each and putting `sep` between. */
  lemma {:induction false} JoinAppend(a: seq<string>, b: seq<string>, sep: string)
    requires |a| > 0 && |b| > 0
    ensures Join(a + b, sep) == Join(a, sep) + sep + Join(b, sep)
    decreases |a|
  {
    if |a| > 1 {
      JoinAppend(a[1..], b, sep);
      assert (a + b)[1..] == a[1..] + b;
    } else {
      assert (a + b)[1..] == b;
    }
  }

  /** The hex groups of bytes 1 through 8. */
  lemma ExampleGroups()
    ensures HexGroups([1, 2, 3, 4, 5, 6, 7, 8]) == ["01", "02", "03", "04", "05", "06", "07", "08"]
  {
    var g := HexGroups([1, 2, 3, 4, 5, 6, 7, 8]);
    assert g[0] == "01" && g[1] == "02" && g[2] == "03" && g[3] == "04";
    assert g[4] == "05" && g[5] == "06" && g[6] == "07" && g[7] == "08";
  }

  /** Joining four items. */
  lemma JoinFour(a: string, b: string, c: string, d: string, sep: string)
    ensures Join([a, b, c, d], sep) == a + sep + b + sep + c + sep + d
  {
    assert [c, d][1..] == [d];
    assert Join([c, d], sep) == c + sep + d;
    assert [b, c, d][1..] == [c, d];
    assert Join([b, c, d], sep) == b + sep + (c + sep + d);
    assert [a, b, c, d][1..] == [b, c, d];
    assert Join([a, b, c, d], sep) == a + sep + (b + sep + (c + sep + d));
  }

  /** Eight two-digit groups, joined. */
  lemma ExampleJoinedGroups()
    ensures Join(["01", "02", "03", "04", "05", "06", "07", "08"], " ") == "01 02 03 04 05 06 07 08"
  {
    var low, high := ["01", "02", "03", "04"], ["05", "06", "07", "08"];
    JoinAppend(low, high, " ");
    JoinFour("01", "02", "03", "04", " ");
    JoinFour("05", "06", "07", "08", " ");
    assert Join(low, " ") == "01 02 03 04";
    assert Join(high, " ") == "05 06 07 08";
    assert low + high == ["01", "02", "03", "04", "05", "06", "07", "08"];
    assert "01 02 03 04" + " " + "05 06 07 08" == "01 02 03 04 05 06 07 08";
  }

  /** Eight padding groups. */
  lemma ExamplePadding()
    ensures Repeat("  ", 8) == ["  ", "  ", "  ", "  ", "  ", "  ", "  ", "  "]
  {
  }

  /** Eight padding groups, joined. */
  lemma ExampleJoinedPadding()
    ensures Join(["  ", "  ", "  ", "  ", "  ", "  ", "  ", "  "], " ") == "                       "
  {
    var half := ["  ", "  ", "  ", "  "];
    JoinAppend(half, half, " ");
    JoinFour("  ", "  ", "  ", "  ", " ");
    assert Join(half, " ") == "           ";
    assert "           " + " " + "           " == "                       ";
    assert half + half == ["  ", "  ", "  ", "  ", "  ", "  ", "  ", "  "];
  }

  /** The hex field of bytes 1 through 8 at sixteen columns. */
  lemma ExampleHexField()
    ensures HexField([1, 2, 3, 4, 5, 6, 7, 8], 16) == "01 02 03 04 05 06 07 08" + " " + "                       "
  {
    var groups := ["01", "02", "03", "04", "05", "06", "07", "08"];
    var pad := ["  ", "  ", "  ", "  ", "  ", "  ", "  ", "  "];
    ExampleGroups();
    ExamplePadding();
    ExampleJoinedGroups();
    ExampleJoinedPadding();
    JoinAppend(groups, pad, " ");
  }

  /** The ascii field of bytes 1 through 8 at sixteen columns. */
  lemma ExampleAsciiField()
    ensures AsciiField([1, 2, 3, 4, 5, 6, 7, 8], 16) == "........        "
  {
    assert AsciiChars([1, 2, 3, 4, 5, 6, 7, 8]) == "........";
    assert Repeat(' ', 8) == "        ";
  }

  /**
   * Bytes 1 through 8 under the default configuration: a single row at
   * offset 0, eight hex groups then eight padding groups, eight dots then
   * eight spaces.
   */
  lemma DefaultConfigExample()
    ensures Dump(DefaultConfig(), [1, 2, 3, 4, 5, 6, 7, 8]) ==
      [Row(0, "01 02 03 04 05 06 07 08                        ", "........        ")]
  {
    var buf: seq<byte> := [1, 2, 3, 4, 5, 6, 7, 8];
    assert buf[..8] == buf && buf[8..] == [];
    ExampleHexField();
    assert "01 02 03 04 05 06 07 08" + " " + "                       " == "01 02 03 04 05 06 07 08                        ";
    ExampleAsciiField();
  }

  /** Ten bytes at four columns are rendered as two full chunks and one of two bytes. */
  lemma FourColumnRows(buf: seq<byte>)
    requires |buf| == 10
    ensures Dump(Config(4, 0), buf) ==
      [RowOf(0, buf[..4], 4), RowOf(4, buf[4..8], 4), RowOf(8, buf[8..], 4)]
  {
    var last := buf[8..];
    assert buf[4..][..4] == buf[4..8];
    assert buf[4..][4..] == last && last[..2] == last && last[2..] == [];
    RowsUnfold(buf, 4, 0);
    RowsUnfold(buf[4..], 4, 4);
  }

  /**
   * Ten bytes at four columns: rows at offsets 0, 4 and 8; the first two
   * have no padding, the last has two real bytes and two padding positions
   * in each field.
   */
  lemma FourColumnExample(buf: seq<byte>)
    requires |buf| == 10
    ensures var rows := Dump(Config(4, 0), buf);
      && |rows| == 3
      && rows[0].offset == 0 && rows[1].offset == 4 && rows[2].offset == 8
      && rows[0] == RowOf(0, buf[..4], 4) && rows[1] == RowOf(4, buf[4..8], 4)
      && |rows[2].hex| == 11 && rows[2].hex[..5] == HexByte(buf[8]) + " " + HexByte(buf[9])
      && rows[2].hex[5..] == "      "
      && |rows[2].ascii| == 4 && rows[2].ascii[2..] == "  "
  {
    var rows := Dump(Config(4, 0), buf);
    FourColumnRows(buf);
    HexFieldShape(buf[8..], 4);
    AsciiFieldShape(buf[8..], 4);
    var hex := rows[2].hex;
    assert hex[..5] == Group(hex, 0) + [Separator(hex, 0)] + Group(hex, 1);
    assert hex[5..] == [Separator(hex, 1)] + Group(hex, 2) + [Separator(hex, 2)] + Group(hex, 3);
  }
}
