/** `FileProcessor.hexdump`: the lines it prints, where everything stands in them, and the data they hold. */
module Hexdump {
  import opened Wrappers
  import opened PyText

  type Byte = b: int | 0 <= b < 256

  const DEFAULT_BYTES_PER_LINE: nat := 16

  // ---------------------------------------------------------------- numbers in base sixteen

  function DigitValue(c: char): (r: Option<nat>)
    ensures r.Some? ==> r.value < 16 && c != ' '
  {
    if '0' <= c <= '9' then Some(c as int - '0' as int)
    else if 'a' <= c <= 'f' then Some(c as int - 'a' as int + 10)
    else None
  }

  function HexDigit(d: nat): (c: char)
    requires d < 16
    ensures DigitValue(c) == Some(d) && c == "0123456789abcdef"[d]
  {
    if d < 10 then ('0' as int + d) as char else ('a' as int + d - 10) as char
  }

  /** `f"{n:x}"` */
  function Hex(n: nat): (s: string)
    ensures s != ""
  {
    if n < 16 then [HexDigit(n)] else Hex(n / 16) + [HexDigit(n % 16)]
  }

  function Repeat(c: char, n: nat): (s: string)
    ensures |s| == n && forall i :: 0 <= i < n ==> s[i] == c
  {
    seq(n, _ => c)
  }

  /** `f"{n:0<width>x}"`: zeros up to the width, never cutting digits. */
  function HexPadded(n: nat, width: nat): string {
    var digits := Hex(n);
    Repeat('0', if |digits| < width then width - |digits| else 0) + digits
  }

  /** The number a run of digits stands for; None when a character is not a digit. */
  function FromHex(s: string): Option<nat> {
    if s == "" then Some(0)
    else match (FromHex(s[..|s| - 1]), DigitValue(s[|s| - 1]))
      case (Some(high), Some(low)) => Some(16 * high + low)
      case _ => None
  }

  lemma FromHexStep(front: string, d: nat)
    requires d < 16 && FromHex(front).Some?
    ensures FromHex(front + [HexDigit(d)]) == Some(16 * FromHex(front).value + d)
  {
    var s := front + [HexDigit(d)];
    assert s[..|s| - 1] == front;
  }

  lemma {:induction false} FromHexOfHex(zeros: nat, n: nat)
    ensures FromHex(Repeat('0', zeros) + Hex(n)) == Some(n)
    decreases n, zeros
  {
    hide FromHex, HexDigit, Repeat;
    if n >= 16 {
      FromHexOfHex(zeros, n / 16);
      FromHexStep(Repeat('0', zeros) + Hex(n / 16), n % 16);
      assert Repeat('0', zeros) + Hex(n) == Repeat('0', zeros) + Hex(n / 16) + [HexDigit(n % 16)];
    } else {
      ZeroDigits(zeros);
      FromHexStep(Repeat('0', zeros), n);
    }
  }

  lemma {:induction false} ZeroDigits(zeros: nat)
    ensures FromHex(Repeat('0', zeros)) == Some(0)
  {
    if zeros > 0 {
      ZeroDigits(zeros - 1);
      FromHexStep(Repeat('0', zeros - 1), 0);
      assert Repeat('0', zeros) == Repeat('0', zeros - 1) + [HexDigit(0)];
    }
  }

  lemma {:induction false} HexHasNoSpace(n: nat)
    ensures ' ' !in Hex(n)
  {
    if n >= 16 {
      HexHasNoSpace(n / 16);
    }
  }

  function Pow16(k: nat): (p: nat)
    ensures p >= 1
  {
    if k == 0 then 1 else 16 * Pow16(k - 1)
  }

  lemma {:induction false} HexLength(n: nat, k: nat)
    requires 1 <= k
    ensures n < Pow16(k) <==> |Hex(n)| <= k
  {
    if k == 1 {
      assert Pow16(1) == 16;
    } else if n >= 16 {
      HexLength(n / 16, k - 1);
    }
  }

  lemma BytePair(b: Byte)
    ensures HexPadded(b, 2) == [HexDigit(b / 16), HexDigit(b % 16)]
  {
    if b >= 16 {
      assert Hex(b) == Hex(b / 16) + [HexDigit(b % 16)];
      assert Hex(b / 16) == [HexDigit(b / 16)];
      assert HexPadded(b, 2) == Repeat('0', 0) + Hex(b);
    } else {
      assert b / 16 == 0 && b % 16 == b;
      assert HexDigit(0) == '0';
      assert HexPadded(b, 2) == Repeat('0', 1) + [HexDigit(b)];
    }
  }

  // ---------------------------------------------------------------- one line

  /** The two-digit bytes, joined by single spaces. */
  function HexBytes(chunk: seq<Byte>): string {
    if chunk == [] then ""
    else if |chunk| == 1 then HexPadded(chunk[0], 2)
    else HexPadded(chunk[0], 2) + " " + HexBytes(chunk[1..])
  }

  function Shown(b: Byte): char { if 32 <= b <= 126 then b as char else '.' }

  function Ascii(chunk: seq<Byte>): string { seq(|chunk|, i requires 0 <= i < |chunk| => Shown(chunk[i])) }

  /** The hex bytes padded by three blanks for every byte the line lacks. */
  function HexColumn(chunk: seq<Byte>, width: nat): string {
    HexBytes(chunk) + Repeat(' ', if |chunk| < width then 3 * (width - |chunk|) else 0)
  }

  function Line(offset: nat, chunk: seq<Byte>, width: nat): string {
    HexPadded(offset, 8) + "  " + HexColumn(chunk, width) + "  |" + Ascii(chunk) + "|"
  }

  // ---------------------------------------------------------------- the dump

  function Chunk(data: seq<Byte>, offset: nat, width: nat): seq<Byte>
    requires offset <= |data|
  {
    data[offset..if offset + width <= |data| then offset + width else |data|]
  }

  /** The lines from an offset on. */
  function DumpFrom(data: seq<Byte>, offset: nat, width: nat): seq<string>
    requires offset <= |data| && width > 0
    decreases |data| - offset
  {
    if offset == |data| then []
    else
      var chunk := Chunk(data, offset, width);
      [Line(offset, chunk, width)] + DumpFrom(data, offset + |chunk|, width)
  }

  function Width(bytesPerLine: int): (w: nat)
    ensures w > 0
    ensures bytesPerLine > 0 ==> w == bytesPerLine
    ensures bytesPerLine <= 0 ==> w == 16
  {
    if bytesPerLine <= 0 then DEFAULT_BYTES_PER_LINE else bytesPerLine
  }

  /** What is dumped of the file: a missing or non-positive limit is no limit. */
  function Limited(data: seq<Byte>, limit: Option<int>): (r: seq<Byte>)
    ensures r <= data
    ensures limit.Some? && 0 < limit.value < |data| ==> |r| == limit.value
    ensures limit.None? || limit.value <= 0 || limit.value >= |data| ==> r == data
  {
    if limit.Some? && 0 < limit.value < |data| then data[..limit.value] else data
  }

  lemma DumpStep(data: seq<Byte>, offset: nat, width: nat)
    requires offset <= |data| && width > 0
    ensures offset == |data| ==> DumpFrom(data, offset, width) == []
    ensures offset < |data| ==>
              var chunk := Chunk(data, offset, width);
              && |chunk| > 0
              && DumpFrom(data, offset, width) == [Line(offset, chunk, width)] + DumpFrom(data, offset + |chunk|, width)
  {
    hide Line;
  }

  /** Line i, if there is one, starts at the i-th multiple of the width. */
  ghost predicate LineAt(lines: seq<string>, data: seq<Byte>, first: nat, width: nat, i: nat) {
    i < |lines| ==>
      first + i * width < |data| && lines[i] == Line(first + i * width, Chunk(data, first + i * width, width), width)
  }

  lemma TimesNext(a: int, width: nat)
    ensures (a + 1) * width == a * width + width
  {}

  /** As many lines as blocks of the width, the last one possibly short; line i stands at offset i * width. */
  lemma {:induction false} DumpShape(data: seq<Byte>, offset: nat, width: nat)
    requires offset <= |data| && width > 0
    ensures var lines := DumpFrom(data, offset, width);
            && |data| - offset <= |lines| * width < |data| - offset + width
            && forall i: nat :: LineAt(lines, data, offset, width, i)
    decreases |data| - offset
  {
    hide Line;
    var lines := DumpFrom(data, offset, width);
    if offset < |data| {
      var chunk := Chunk(data, offset, width);
      DumpShape(data, offset + |chunk|, width);
      var rest := DumpFrom(data, offset + |chunk|, width);
      TimesNext(|rest|, width);
      if |chunk| < width {
        assert rest == [];
      }
      forall i: nat ensures LineAt(lines, data, offset, width, i) {
        if 0 < i < |lines| {
          assert LineAt(rest, data, offset + |chunk|, width, i - 1);
          TimesNext(i - 1, width);
          assert lines[i] == rest[i - 1];
        }
      }
    }
  }

  lemma Monotone(a: int, b: int, width: nat)
    ensures a <= b ==> a * width <= b * width
  {}

  lemma Quotient(n: int, width: int, q: int)
    requires width > 0 && q * width <= n < q * width + width
    ensures n / width == q
  {
    var p := n / width;
    assert n == p * width + n % width;
    Monotone(p + 1, q, width);
    Monotone(q + 1, p, width);
  }

  /** A dump has ceil(n / w) lines. */
  lemma LineCount(data: seq<Byte>, width: nat)
    requires width > 0
    ensures |DumpFrom(data, 0, width)| == (|data| + width - 1) / width
  {
    DumpShape(data, 0, width);
    Quotient(|data| + width - 1, width, |DumpFrom(data, 0, width)|);
  }

  // ---------------------------------------------------------------- the columns of a line

  lemma {:induction false} HexBytesLength(chunk: seq<Byte>)
    requires chunk != []
    ensures |HexBytes(chunk)| == 3 * |chunk| - 1
  {
    BytePair(chunk[0]);
    if |chunk| > 1 {
      HexBytesLength(chunk[1..]);
    }
  }

  lemma HexBytesFirst(chunk: seq<Byte>)
    requires chunk != []
    ensures HexBytes(chunk) == HexPadded(chunk[0], 2) + if |chunk| == 1 then "" else " " + HexBytes(chunk[1..])
  {
    hide HexPadded;
    if |chunk| > 1 {
      assert HexBytes(chunk) == HexPadded(chunk[0], 2) + " " + HexBytes(chunk[1..]);
    }
  }

  /** The two digits of byte i. */
  lemma {:induction false} HexBytesAt(chunk: seq<Byte>, i: nat)
    requires i < |chunk|
    ensures |HexBytes(chunk)| == 3 * |chunk| - 1
    ensures HexBytes(chunk)[3 * i] == HexDigit(chunk[i] / 16)
    ensures HexBytes(chunk)[3 * i + 1] == HexDigit(chunk[i] % 16)
    ensures i < |chunk| - 1 ==> HexBytes(chunk)[3 * i + 2] == ' '
  {
    hide HexBytes, HexDigit, HexPadded;
    HexBytesLength(chunk);
    HexBytesFirst(chunk);
    BytePair(chunk[0]);
    if i > 0 {
      HexBytesLength(chunk[1..]);
      HexBytesAt(chunk[1..], i - 1);
      var rest := HexBytes(chunk[1..]);
      assert HexBytes(chunk)[3 * i] == rest[3 * (i - 1)] && HexBytes(chunk)[3 * i + 1] == rest[3 * (i - 1) + 1];
      assert i < |chunk| - 1 ==> HexBytes(chunk)[3 * i + 2] == rest[3 * (i - 1) + 2];
    }
  }

  /**
  The hex column is 3 * width - 1 characters wide on every line, so the text column starts at the same place whatever
  the line holds. In the text a byte shows as itself if it is printable and as a dot if not.
  */
  lemma LineColumns(offset: nat, chunk: seq<Byte>, width: nat)
    requires 0 < |chunk| <= width
    ensures var line := Line(offset, chunk, width);
            var start := |HexPadded(offset, 8)| + 2;
            var bar := start + 3 * width - 1;
            && |line| == bar + 4 + |chunk|
            && line[..start] == HexPadded(offset, 8) + "  "
            && line[start..bar] == HexColumn(chunk, width)
            && line[bar..bar + 3] == "  |" && line[|line| - 1] == '|'
            && (forall i :: 0 <= i < |chunk| ==>
                  line[bar + 3 + i] == if 32 <= chunk[i] <= 126 then chunk[i] as char else '.')
    ensures offset < 0x1_0000_0000 <==> |HexPadded(offset, 8)| == 8
  {
    HexBytesLength(chunk);
    HexLength(offset, 8);
    assert Pow16(8) == 0x1_0000_0000;
    Columns(HexPadded(offset, 8), HexColumn(chunk, width), Ascii(chunk));
  }

  /** The two digits of a byte, followed by a blank. */
  predicate ByteShownAt(line: string, at: nat, b: Byte) {
    at + 2 < |line| && line[at] == "0123456789abcdef"[b / 16] && line[at + 1] == "0123456789abcdef"[b % 16]
    && line[at + 2] == ' '
  }

  /** Each byte shows as two digits, three characters after those of the byte before; then the hex column is blank. */
  lemma LineDigits(offset: nat, chunk: seq<Byte>, width: nat, i: nat)
    requires 0 < |chunk| <= width && i < |chunk|
    ensures var line, start := Line(offset, chunk, width), |HexPadded(offset, 8)| + 2;
            && ByteShownAt(line, start + 3 * i, chunk[i])
            && start + 3 * width <= |line|
            && forall j :: start + 3 * |chunk| - 1 <= j < start + 3 * width ==> line[j] == ' '
  {
    hide Line, HexPadded, HexBytes;
    LineColumns(offset, chunk, width);
    HexBytesAt(chunk, i);
    var line, start := Line(offset, chunk, width), |HexPadded(offset, 8)| + 2;
    var bar := start + 3 * width - 1;
    var column := HexColumn(chunk, width);
    forall j | start <= j < bar ensures line[j] == column[j - start] {
      assert line[j] == line[start..bar][j - start];
    }
    assert line[bar] == line[bar..bar + 3][0];
    assert column == HexBytes(chunk) + Repeat(' ', 3 * (width - |chunk|));
  }

  lemma Columns(number: string, column: string, text: string)
    ensures var line := number + "  " + column + "  |" + text + "|";
            var start := |number| + 2;
            var bar := start + |column|;
            && |line| == bar + 4 + |text|
            && line[..start] == number + "  "
            && line[start..bar] == column
            && line[bar..bar + 3] == "  |" && line[|line| - 1] == '|'
            && forall i :: 0 <= i < |text| ==> line[bar + 3 + i] == text[i]
  {}

  // ---------------------------------------------------------------- reading a dump back

  /** The bytes at the head of a text: pairs of digits, one space between two of them. */
  function ReadPairs(s: string): seq<Byte> {
    if |s| < 2 then []
    else match (DigitValue(s[0]), DigitValue(s[1]))
      case (Some(high), Some(low)) =>
        [16 * high + low] + if |s| > 2 && s[2] == ' ' then ReadPairs(s[3..]) else []
      case _ => []
  }

  /** Offset and bytes of a line; the width of the dump is not needed. */
  function ReadLine(line: string): Option<(nat, seq<Byte>)> {
    match FindFirst(line, "  ")
    case None => None
    case Some(k) =>
      match FromHex(line[..k])
      case None => None
      case Some(offset) => Some((offset, ReadPairs(line[k + 2..])))
  }

  /** The data of a whole dump; None when a line does not start where the one before it ended. */
  function ReadLines(lines: seq<string>, offset: nat): Option<seq<Byte>> {
    if lines == [] then Some([])
    else match ReadLine(lines[0])
      case None => None
      case Some((at, bytes)) =>
        if at != offset then None
        else match ReadLines(lines[1..], offset + |bytes|)
          case None => None
          case Some(rest) => Some(bytes + rest)
  }

  lemma ReadPair(b: Byte, rest: string)
    requires rest != "" && rest[0] == ' '
    ensures ReadPairs(HexPadded(b, 2) + rest) == [b] + ReadPairs(rest[1..])
  {
    hide Hex, HexPadded;
    BytePair(b);
    var s := [HexDigit(b / 16), HexDigit(b % 16)] + rest;
    assert s[2..] == rest && s[3..] == rest[1..];
  }

  lemma {:induction false} ReadPairsPrinted(chunk: seq<Byte>, tail: string)
    requires chunk != [] && "  " <= tail
    ensures ReadPairs(HexBytes(chunk) + tail) == chunk
  {
    hide HexPadded;
    if |chunk| == 1 {
      ReadPair(chunk[0], tail);
      assert tail[1] == ' ' && tail[1..][0] == ' ';
    } else {
      var rest := " " + (HexBytes(chunk[1..]) + tail);
      assert HexBytes(chunk) + tail == HexPadded(chunk[0], 2) + rest;
      ReadPair(chunk[0], rest);
      assert rest[1..] == HexBytes(chunk[1..]) + tail;
      ReadPairsPrinted(chunk[1..], tail);
    }
  }

  lemma FirstGap(number: string, rest: string)
    requires ' ' !in number
    ensures FindFirst(number + "  " + rest, "  ") == Some(|number|)
  {
    var s := number + "  " + rest;
    assert s[|number|..|number| + 2] == "  ";
    assert OccursAt(s, "  ", |number|);
    forall i | 0 <= i < |number| ensures !OccursAt(s, "  ", i) {
      assert s[i] == number[i];
      assert s[i..i + 2][0] == s[i];
    }
  }

  lemma ReadLinePrinted(offset: nat, chunk: seq<Byte>, width: nat)
    requires chunk != []
    ensures ReadLine(Line(offset, chunk, width)) == Some((offset, chunk))
  {
    hide FindFirst, ReadPairs, FromHex, Hex, HexBytes;
    var number := HexPadded(offset, 8);
    var line := Line(offset, chunk, width);
    var tail := Repeat(' ', if |chunk| < width then 3 * (width - |chunk|) else 0) + "  |" + Ascii(chunk) + "|";
    assert line == number + "  " + (HexBytes(chunk) + tail);
    HexHasNoSpace(offset);
    FirstGap(number, HexBytes(chunk) + tail);
    FromHexOfHex(if |Hex(offset)| < 8 then 8 - |Hex(offset)| else 0, offset);
    assert line[..|number|] == number && line[|number| + 2..] == HexBytes(chunk) + tail;
    ReadPairsPrinted(chunk, tail);
  }

  /** Reading undoes dumping, for every width: no byte is lost, changed, doubled or misplaced. */
  lemma {:induction false} ReadUndoesDump(data: seq<Byte>, offset: nat, width: nat)
    requires offset <= |data| && width > 0
    ensures ReadLines(DumpFrom(data, offset, width), offset) == Some(data[offset..])
    decreases |data| - offset
  {
    hide Line, ReadLine;
    if offset < |data| {
      var chunk := Chunk(data, offset, width);
      ReadLinePrinted(offset, chunk, width);
      ReadUndoesDump(data, offset + |chunk|, width);
      assert DumpFrom(data, offset, width)[1..] == DumpFrom(data, offset + |chunk|, width);
      assert data[offset..] == chunk + data[offset + |chunk|..];
    } else {
      assert data[offset..] == [];
    }
  }

  /** Equal dumps, even of different widths, come from equal data. */
  lemma DumpInjective(a: seq<Byte>, b: seq<Byte>, v: nat, w: nat)
    requires v > 0 && w > 0
    ensures DumpFrom(a, 0, v) == DumpFrom(b, 0, w) ==> a == b
  {
    ReadUndoesDump(a, 0, v);
    ReadUndoesDump(b, 0, w);
    assert a[0..] == a && b[0..] == b;
  }

  // ---------------------------------------------------------------- the method

  /** `hexdump`, on the bytes that `read_file` gave (none when the file could not be read). */
  method Dump(file: seq<Byte>, bytesPerLine: int, limit: Option<int>) returns (lines: seq<string>)
    ensures lines == DumpFrom(Limited(file, limit), 0, Width(bytesPerLine))
    ensures ReadLines(lines, 0) == Some(Limited(file, limit))
    ensures |lines| == (|Limited(file, limit)| + Width(bytesPerLine) - 1) / Width(bytesPerLine)
  {
    hide Line, DumpFrom, ReadLines;
    ReadUndoesDump(Limited(file, limit), 0, Width(bytesPerLine));
    LineCount(Limited(file, limit), Width(bytesPerLine));
    DumpStep([], 0, Width(bytesPerLine));
    var width := bytesPerLine;
    if width <= 0 {
      width := DEFAULT_BYTES_PER_LINE;
    }
    if file == [] {
      return [];
    }
    var data := file;
    if limit.Some? && limit.value > 0 {
      data := if limit.value < |data| then data[..limit.value] else data;
    }
    lines := [];
    var offset := 0;
    while offset < |data|
      invariant 0 <= offset <= |data|
      invariant lines + DumpFrom(data, offset, width) == DumpFrom(data, 0, width)
    {
      var chunk := Chunk(data, offset, width);
      DumpStep(data, offset, width);
      lines := lines + [Line(offset, chunk, width)];
      offset := offset + |chunk|;
    }
    DumpStep(data, offset, width);
  }
}
