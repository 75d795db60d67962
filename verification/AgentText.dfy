/**
The agent transport's line parser, from textual SNMP output back to typed variable bindings: what it computes, and that
it works line by line. That it undoes the printers is in AgentPrinter.
*/
module AgentText {
  import opened Wrappers
  import opened PyText
  import opened Oids
  import opened OidNames

  /** A typed value; octet strings are given by their octets. */
  datatype Value = Octets(octets: seq<int>) | Unsigned32(n: int) | Counter64(n: int) | Integer32(n: int)

  datatype AgentVarBind = AgentVarBind(oid: string, value: Value)

  // ---------------------------------------------------------------- OID names

  /** `_resolve_oid`, with the compiled OID table as a parameter. */
  function ResolveOid(oid: string, table: map<string, string>): string { Resolve(oid, table, IsNameChar) }

  /** The OID column: an `iso.` prefix becomes 1., a module prefix is dropped, and symbolic names are resolved. */
  function NormalizeOid(oid: string, table: map<string, string>): string {
    if "iso." <= oid then "1" + oid[3..]
    else match FindFirst(oid, "::")
      case Some(k) => ResolveOid(Strip(oid[k + 2..]), table)
      case None => if NumericPrefix(oid) then oid else ResolveOid(Strip(oid), table)
  }

  // ---------------------------------------------------------------- values

  predicate IsHexDigit(c: char) { IsDigit(c) || 'a' <= c <= 'f' || 'A' <= c <= 'F' }

  function HexValue(c: char): int
    requires IsHexDigit(c)
  {
    if IsDigit(c) then c as int - '0' as int
    else if 'a' <= c <= 'f' then c as int - 'a' as int + 10
    else c as int - 'A' as int + 10
  }

  predicate IsAsciiSpace(c: char) { c == ' ' || 9 <= c as int <= 13 }

  /** `bytes.fromhex` */
  function FromHex(s: string): Result<seq<int>> {
    if s == "" then Ok([])
    else if IsAsciiSpace(s[0]) then FromHex(s[1..])
    else if |s| >= 2 && IsHexDigit(s[0]) && IsHexDigit(s[1]) then
      match FromHex(s[2..])
      case Raised => Raised
      case Ok(rest) => Ok([16 * HexValue(s[0]) + HexValue(s[1])] + rest)
    else Raised
  }

  /** `s.replace(' ', '')` */
  function DropSpaces(s: string): string {
    if s == "" then "" else (if s[0] == ' ' then "" else [s[0]]) + DropSpaces(s[1..])
  }

  /** `OctetString(text)`: one octet a character, an error outside ISO 8859-1. */
  function TextOctets(s: string): Result<seq<int>> {
    if s == "" then Ok([])
    else if s[0] as int > 255 then Raised
    else match TextOctets(s[1..])
      case Raised => Raised
      case Ok(rest) => Ok([s[0] as int] + rest)
  }

  /** The integer type by size; the type constructors raise outside their ranges. */
  function TypedInt(n: int): Result<Value> {
    if 0 <= n <= 4294967295 then Ok(Unsigned32(n))
    else if n > 4294967295 then (if n < 0x1_0000_0000_0000_0000 then Ok(Counter64(n)) else Raised)
    else if n >= -0x8000_0000 then Ok(Integer32(n))
    else Raised
  }

  function AsOctets(r: Result<seq<int>>): Result<Value> {
    match r case Ok(b) => Ok(Octets(b)) case Raised => Raised
  }

  /** A value after its type name and colon. */
  function KindedValue(kind: string, part: string): Result<Value> {
    if kind == "Hex-STRING" then AsOctets(FromHex(DropSpaces(part)))
    else if kind == "INTEGER" || kind == "Gauge32" then
      match PyInt(part)
      case None => Raised
      case Some(n) => TypedInt(n)
    else if kind == "STRING" then
      AsOctets(TextOctets(if part != "" && part[0] == '"' && part[|part| - 1] == '"'
                          then (if |part| == 1 then "" else part[1..|part| - 1]) else part))
    else AsOctets(TextOctets(part))
  }

  predicate NamesKind(v: string) {
    Contains(v, "Hex-STRING:") || Contains(v, "STRING:") || Contains(v, "INTEGER:") || Contains(v, "Gauge32:")
  }

  /** The value column, stripped. */
  function ParseValue(v: string): Result<Value> {
    var colon := FindFirst(v, ":");
    if colon.Some? && NamesKind(v) then
      KindedValue(Strip(v[..colon.value]), Strip(v[colon.value + 1..]))
    else if "0x" <= v && |v| > 2 && forall i :: 2 <= i < |v| ==> IsHexDigit(v[i]) then AsOctets(FromHex(v[2..]))
    else match PyInt(v)
      case Some(n) => TypedInt(n)
      case None => AsOctets(TextOctets(v))
  }

  /** One line: no binding for a blank line or one without ` = `. */
  function ParseLine(raw: string, table: map<string, string>): Result<seq<AgentVarBind>> {
    var line := Strip(raw);
    var eq := FindFirst(line, " = ");
    if line == "" || eq.None? then Ok([])
    else match ParseValue(Strip(line[eq.value + 3..]))
      case Raised => Raised
      case Ok(value) => Ok([AgentVarBind(NormalizeOid(line[..eq.value], table), value)])
  }

  // ---------------------------------------------------------------- lines

  /** The characters at which `str.splitlines` breaks. */
  predicate IsLineBreak(c: char) {
    var n := c as int;
    10 <= n <= 13 || 28 <= n <= 30 || n == 0x85 || n == 0x2028 || n == 0x2029
  }

  function TakeLine(s: string): string {
    if s == "" || IsLineBreak(s[0]) then "" else [s[0]] + TakeLine(s[1..])
  }

  /** What follows the first line and its break; a carriage return and a line feed are one break. */
  function DropLine(s: string): string {
    if s == "" then ""
    else if !IsLineBreak(s[0]) then DropLine(s[1..])
    else if s[0] == '\r' && |s| >= 2 && s[1] == '\n' then s[2..]
    else s[1..]
  }

  lemma {:induction false} DropLineShorter(s: string)
    requires s != ""
    ensures |DropLine(s)| < |s|
  {
    if !IsLineBreak(s[0]) && |s| > 1 {
      DropLineShorter(s[1..]);
    }
  }

  /** `s.splitlines()` */
  function SplitLines(s: string): seq<string>
    decreases |s|
  {
    if s == "" then []
    else
      DropLineShorter(s);
      [TakeLine(s)] + SplitLines(DropLine(s))
  }

  /** The first line of a text, up to a character at which lines break; "\r\n" is one break. */
  lemma {:induction false} LineEnds(a: string, c: char, b: string)
    requires forall i :: 0 <= i < |a| ==> a[i] as int !in {10, 11, 12, 13, 28, 29, 30, 0x85, 0x2028, 0x2029}
    requires c as int in {10, 11, 12, 13, 28, 29, 30, 0x85, 0x2028, 0x2029}
    ensures TakeLine(a + [c] + b) == a
    ensures DropLine(a + [c] + b) == if c == '\r' && b != "" && b[0] == '\n' then b[1..] else b
  {
    var s := a + [c] + b;
    if a == "" {
      assert s[1..] == b;
      assert |s| >= 2 ==> s[1] == b[0] && s[2..] == b[1..];
    } else {
      assert s[1..] == a[1..] + [c] + b;
      LineEnds(a[1..], c, b);
    }
  }

  /** Hence `splitlines`: that line, then the lines of what follows. */
  lemma SplitLinesAt(a: string, c: char, b: string)
    requires forall i :: 0 <= i < |a| ==> a[i] as int !in {10, 11, 12, 13, 28, 29, 30, 0x85, 0x2028, 0x2029}
    requires c as int in {10, 11, 12, 13, 28, 29, 30, 0x85, 0x2028, 0x2029}
    ensures SplitLines(a + [c] + b)
         == [a] + SplitLines(if c == '\r' && b != "" && b[0] == '\n' then b[1..] else b)
    ensures SplitLines(a) == if a == "" then [] else [a]
  {
    LineEnds(a, c, b);
    WholeLine(a);
  }

  lemma {:induction false} WholeLine(a: string)
    requires forall i :: 0 <= i < |a| ==> a[i] as int !in {10, 11, 12, 13, 28, 29, 30, 0x85, 0x2028, 0x2029}
    ensures TakeLine(a) == a && DropLine(a) == ""
  {
    if a != "" {
      WholeLine(a[1..]);
      assert a == [a[0]] + a[1..];
    }
  }

  /** White space around a line does not matter, and a line without ` = ` gives nothing. */
  lemma LineAlone(left: string, line: string, right: string, table: map<string, string>)
    requires forall i :: 0 <= i < |left| ==> IsSpace(left[i])
    requires forall i :: 0 <= i < |right| ==> IsSpace(right[i])
    requires Trimmed(line, IsSpace)
    ensures ParseLine(left + line + right, table) == ParseLine(line, table)
    ensures !Contains(line, " = ") ==> ParseLine(line, table) == Ok([])
  {
    hide ParseValue, NormalizeOid;
    StripPadded(left, line, right, IsSpace);
    StripTrimmed(line, IsSpace);
  }

  function Both<T>(a: Result<seq<T>>, b: Result<seq<T>>): Result<seq<T>> {
    if a.Raised? || b.Raised? then Raised else Ok(a.value + b.value)
  }

  function ParseLines(lines: seq<string>, table: map<string, string>): Result<seq<AgentVarBind>> {
    if lines == [] then Ok([]) else Both(ParseLine(lines[0], table), ParseLines(lines[1..], table))
  }

  /** What `_parse_output_to_varbinds` computes. */
  function ParseOutput(output: string, table: map<string, string>): Result<seq<AgentVarBind>> {
    ParseLines(SplitLines(output), table)
  }

  /** One line that does not convert loses the whole output, and nothing else does. */
  lemma {:induction false} ParseRaisesIff(lines: seq<string>, table: map<string, string>)
    ensures ParseLines(lines, table).Raised? <==> exists i :: 0 <= i < |lines| && ParseLine(lines[i], table).Raised?
  {
    hide ParseLine;
    if lines != [] {
      ParseRaisesIff(lines[1..], table);
      assert forall i :: 0 <= i < |lines[1..]| ==> lines[1..][i] == lines[i + 1];
      if i :| 0 <= i < |lines| && ParseLine(lines[i], table).Raised? {
        assert i > 0 ==> ParseLine(lines[1..][i - 1], table).Raised?;
      }
    }
  }

  lemma BothAssoc<T>(a: Result<seq<T>>, b: Result<seq<T>>, c: Result<seq<T>>)
    ensures Both(Both(a, b), c) == Both(a, Both(b, c))
    ensures Both(Ok([]), a) == a && Both(a, Ok([])) == a
  {
    if a.Ok? {
      assert [] + a.value == a.value && a.value + [] == a.value;
      if b.Ok? && c.Ok? {
        assert (a.value + b.value) + c.value == a.value + (b.value + c.value);
      }
    }
  }

  lemma {:induction false} ParseLinesSnoc(lines: seq<string>, line: string, table: map<string, string>)
    ensures ParseLines(lines + [line], table) == Both(ParseLines(lines, table), ParseLine(line, table))
  {
    if lines == [] {
      assert lines + [line] == [line];
      assert ParseLines([line][1..], table) == Ok([]);
      BothAssoc(ParseLine(line, table), Ok([]), Ok([]));
    } else {
      assert (lines + [line])[1..] == lines[1..] + [line];
      ParseLinesSnoc(lines[1..], line, table);
      BothAssoc(ParseLine(lines[0], table), ParseLines(lines[1..], table), ParseLine(line, table));
    }
  }

  /** `_parse_output_to_varbinds` */
  method ParseOutputToVarbinds(output: string, table: map<string, string>) returns (r: Result<seq<AgentVarBind>>)
    ensures r == ParseOutput(output, table)
  {
    var varbinds: seq<AgentVarBind> := [];
    if output == "" {
      return Ok(varbinds);
    }
    var lines := SplitLines(output);
    for i := 0 to |lines|
      invariant ParseLines(lines[..i], table) == Ok(varbinds)
    {
      assert lines[..i + 1] == lines[..i] + [lines[i]];
      ParseLinesSnoc(lines[..i], lines[i], table);
      var parsed := ParseLine(lines[i], table);
      if parsed.Raised? {
        ParseRaisesIff(lines, table);
        return Raised;
      }
      varbinds := varbinds + parsed.value;
    }
    assert lines[..|lines|] == lines;
    return Ok(varbinds);
  }

  // ---------------------------------------------------------------- joined outputs

  lemma BlankLine(table: map<string, string>)
    ensures ParseLine("", table) == Ok([])
  {}

  /** The first line of a text that goes on after a line feed. */
  lemma {:induction false} FirstLine(a: string, b: string)
    ensures TakeLine(a + "\n" + b) == TakeLine(a)
    ensures DropLine(a + "\n" + b) ==
            if TakeLine(a) == a || (|a| == |TakeLine(a)| + 1 && a[|a| - 1] == '\r') then b
            else DropLine(a) + "\n" + b
  {
    var s := a + "\n" + b;
    if a == "" {
      assert s[1..] == b;
    } else if !IsLineBreak(a[0]) {
      assert s[1..] == a[1..] + "\n" + b;
      FirstLine(a[1..], b);
    } else {
      assert s[1..] == a[1..] + "\n" + b;
      if |a| == 1 {
        assert s[1] == '\n';
        assert s[2..] == b;
      } else {
        assert s[1] == a[1];
        assert s[2..] == a[2..] + "\n" + b;
      }
    }
  }

  lemma {:induction false} LineWithoutBreak(a: string)
    ensures TakeLine(a) == a ==> DropLine(a) == ""
    ensures |a| == |TakeLine(a)| + 1 ==> DropLine(a) == ""
  {
    if a != "" && !IsLineBreak(a[0]) {
      LineWithoutBreak(a[1..]);
      assert a == [a[0]] + a[1..];
    }
  }

  /** Two outputs joined by a line feed parse to the bindings of the first, then those of the second. */
  lemma {:induction false} ParseJoined(a: string, b: string, table: map<string, string>)
    ensures ParseOutput(a + "\n" + b, table) == Both(ParseOutput(a, table), ParseOutput(b, table))
    decreases |a|
  {
    var s := a + "\n" + b;
    var first, rest := ParseLine(TakeLine(a), table), SplitLines(DropLine(s));
    FirstLine(a, b);
    ParseCons(TakeLine(a), SplitLines(DropLine(s)), table);
    if a == "" {
      BlankLine(table);
      BothAssoc(ParseOutput(b, table), Ok([]), Ok([]));
    } else {
      DropLineShorter(a);
      ParseCons(TakeLine(a), SplitLines(DropLine(a)), table);
      LineWithoutBreak(a);
      if TakeLine(a) == a || (|a| == |TakeLine(a)| + 1 && a[|a| - 1] == '\r') {
        BothAssoc(first, Ok([]), Ok([]));
      } else {
        ParseJoined(DropLine(a), b, table);
        BothAssoc(first, ParseOutput(DropLine(a), table), ParseOutput(b, table));
      }
    }
  }

  lemma ParseCons(line: string, lines: seq<string>, table: map<string, string>)
    ensures ParseLines([line] + lines, table) == Both(ParseLine(line, table), ParseLines(lines, table))
  {
    assert ([line] + lines)[1..] == lines;
  }
}
