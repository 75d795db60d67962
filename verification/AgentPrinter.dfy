/**
The two printed forms that the agent transport's parser takes, that of snmpwalk and that of pysnmp's prettyPrint, and
that parsing gives back what was printed.
*/
module AgentPrinter {
  import opened Wrappers
  import opened PyText
  import opened Oids
  import opened OidNames
  import opened AgentText

  // ---------------------------------------------------------------- the printer

  /**
  A value as it is printed. snmpwalk names the type of a number, of a text with or without quotes, and of octets in
  hexadecimal; prettyPrint writes a bare number, a text as it is, or octets after `0x`.
  */
  datatype Printed =
    | Number(n: int) | Gauge(n: int) | Bare(n: int)
    | Text(octets: seq<int>) | Unquoted(octets: seq<int>) | Plain(octets: seq<int>)
    | Hex(octets: seq<int>) | BareHex(octets: seq<int>)

  predicate AreOctets(octets: seq<int>) { forall i :: 0 <= i < |octets| ==> 0 <= octets[i] <= 255 }

  /** A text that is neither empty nor stripped nor broken into lines. */
  predicate InColumn(v: string) { v != "" && Trimmed(v, IsSpace) && NoBreak(v) }

  /**
  What is printed so that it can be read back: numbers of the SNMP types, texts without line breaks; a text that stands
  without quotes must not look like anything else.
  */
  predicate Printable(p: Printed) {
    match p
    case Number(n) => -0x8000_0000 <= n < 0x1_0000_0000_0000_0000
    case Gauge(n) => -0x8000_0000 <= n < 0x1_0000_0000_0000_0000
    case Bare(n) => -0x8000_0000 <= n < 0x1_0000_0000_0000_0000
    case Text(octets) => AreOctets(octets) && forall i :: 0 <= i < |octets| ==> !IsLineBreak(octets[i] as char)
    case Unquoted(octets) => AreOctets(octets) && InColumn(Chars(octets)) && octets[0] != '"' as int
    case Plain(octets) =>
      && AreOctets(octets) && InColumn(Chars(octets)) && PyInt(Chars(octets)).None? && !("0x" <= Chars(octets))
      && !Contains(Chars(octets), "STRING:") && !Contains(Chars(octets), "INTEGER:")
      && !Contains(Chars(octets), "Gauge32:")
    case Hex(octets) => AreOctets(octets)
    case BareHex(octets) => AreOctets(octets) && octets != []
  }

  function HexDigitChar(d: int): char
    requires 0 <= d < 16
  {
    if d < 10 then (d + '0' as int) as char else (d - 10 + 'A' as int) as char
  }

  function Chars(octets: seq<int>): string
    requires AreOctets(octets)
  {
    seq(|octets|, i requires 0 <= i < |octets| => octets[i] as char)
  }

  /** ` 07 EA 02`: a space before each pair. */
  function HexPairs(octets: seq<int>): string
    requires AreOctets(octets)
  {
    if octets == [] then ""
    else [' ', HexDigitChar(octets[0] / 16), HexDigitChar(octets[0] % 16)] + HexPairs(octets[1..])
  }

  /** `octets.hex()` */
  function LowerHex(octets: seq<int>): string
    requires AreOctets(octets)
  {
    if octets == [] then ""
    else [LowerDigit(octets[0] / 16), LowerDigit(octets[0] % 16)] + LowerHex(octets[1..])
  }

  function LowerDigit(d: int): char
    requires 0 <= d < 16
  {
    if d < 10 then (d + '0' as int) as char else (d - 10 + 'a' as int) as char
  }

  function PrintValue(p: Printed): string
    requires Printable(p)
  {
    match p
    case Number(n) => "INTEGER: " + IntText(n)
    case Gauge(n) => "Gauge32: " + IntText(n)
    case Bare(n) => IntText(n)
    case Text(octets) => "STRING: \"" + Chars(octets) + "\""
    case Unquoted(octets) => "STRING: " + Chars(octets)
    case Plain(octets) => Chars(octets)
    case Hex(octets) => "Hex-STRING:" + HexPairs(octets)
    case BareHex(octets) => "0x" + LowerHex(octets)
  }

  /** A name: numbers, the same under `iso`, or a known symbol with its index, with or without its module. */
  datatype Name = Dotted(oid: Oid) | Iso(tail: Oid) | Symbol(mib: Option<string>, base: string, index: Oid)

  /** Starts with a letter, then name characters but no colon. */
  predicate Identifier(s: string) {
    && s != "" && ('a' <= s[0] <= 'z' || 'A' <= s[0] <= 'Z')
    && forall i :: 0 <= i < |s| ==> IsNameChar(s[i]) && s[i] != ':'
  }

  predicate NamePrintable(name: Name) {
    match name
    case Dotted(oid) => |oid| >= 2
    case Iso(tail) => tail != []
    case Symbol(mib, base, _) => Identifier(base) && if mib.Some? then Identifier(mib.value) else base != "iso"
  }

  predicate Known(name: Name, table: map<string, string>) { name.Symbol? ==> name.base in table }

  function IndexText(index: Oid): string { if index == [] then "" else "." + OidText(index) }

  function NameText(name: Name): string
    requires NamePrintable(name)
  {
    match name
    case Dotted(oid) => OidText(oid)
    case Iso(tail) => "iso." + OidText(tail)
    case Symbol(mib, base, index) => (if mib.Some? then mib.value + "::" else "") + base + IndexText(index)
  }

  /** The number that a name stands for. */
  function NameMeaning(name: Name, table: map<string, string>): string
    requires NamePrintable(name) && Known(name, table)
  {
    match name
    case Dotted(oid) => OidText(oid)
    case Iso(tail) => OidText([1] + tail)
    case Symbol(_, base, index) => table[base] + IndexText(index)
  }

  function PrintLine(name: Name, p: Printed): string
    requires NamePrintable(name) && Printable(p)
  {
    NameText(name) + " = " + PrintValue(p)
  }

  /** The value the printer was given, by the parser's types. */
  function Meaning(p: Printed): Value
    requires Printable(p)
  {
    if p.Number? || p.Gauge? || p.Bare? then
      if p.n < 0 then Integer32(p.n) else if p.n <= 4294967295 then Unsigned32(p.n) else Counter64(p.n)
    else Octets(p.octets)
  }

  // ---------------------------------------------------------------- reading back a value

  lemma {:induction false} ReadHexPairs(octets: seq<int>)
    requires AreOctets(octets)
    ensures FromHex(DropSpaces(HexPairs(octets))) == Ok(octets)
  {
    if octets != [] {
      var a, b := HexDigitChar(octets[0] / 16), HexDigitChar(octets[0] % 16);
      var rest := HexPairs(octets[1..]);
      ReadHexPairs(octets[1..]);
      DropSpacesPair(a, b, rest);
      var s := [a, b] + DropSpaces(rest);
      assert s[2..] == DropSpaces(rest);
      assert 16 * HexValue(a) + HexValue(b) == octets[0];
      assert octets == [octets[0]] + octets[1..];
    }
  }

  lemma DropSpacesPair(a: char, b: char, rest: string)
    requires a != ' ' && b != ' '
    ensures DropSpaces([' ', a, b] + rest) == [a, b] + DropSpaces(rest)
  {
    var s := [' ', a, b] + rest;
    assert s[1..] == [a, b] + rest;
    assert ([a, b] + rest)[1..] == [b] + rest;
    assert ([b] + rest)[1..] == rest;
    assert DropSpaces([b] + rest) == [b] + DropSpaces(rest);
    assert DropSpaces([a, b] + rest) == [a] + DropSpaces([b] + rest);
  }

  lemma {:induction false} ReadText(octets: seq<int>)
    requires AreOctets(octets)
    ensures TextOctets(Chars(octets)) == Ok(octets)
  {
    if octets != [] {
      assert Chars(octets)[1..] == Chars(octets[1..]);
      ReadText(octets[1..]);
      assert octets == [octets[0]] + octets[1..];
    }
  }

  lemma {:induction false} HexPairsEnds(octets: seq<int>)
    requires AreOctets(octets)
    ensures var s := HexPairs(octets);
            && (octets != [] ==> |s| >= 3 && s[0] == ' ' && !IsSpace(s[1]) && !IsSpace(s[|s| - 1]))
            && (forall i :: 0 <= i < |s| ==> s[i] == ' ' || IsHexDigit(s[i]))
  {
    if octets != [] {
      HexPairsEnds(octets[1..]);
      var rest := HexPairs(octets[1..]);
      assert octets[1..] == [] ==> rest == "";
    }
  }

  /** A printed value is read by its kind. */
  lemma ReadKind(kind: string, prefix: string, rest: string)
    requires prefix == kind + ":" && ':' !in kind && Trimmed(kind, IsSpace)
    requires prefix == "INTEGER:" || prefix == "Gauge32:" || prefix == "STRING:" || prefix == "Hex-STRING:"
    ensures ParseValue(prefix + rest) == KindedValue(kind, Strip(rest))
  {
    hide KindedValue, FindFirst, Strip;
    KindOf(kind, rest);
    var v := prefix + rest;
    assert v == kind + ":" + rest;
    assert v == "" + prefix + rest;
    FindAfter("", prefix, rest);
  }

  /** A number under its type, of any size: typed by its range, and an error outside. */
  lemma ReadNumber(kind: string, n: int)
    requires kind == "INTEGER" || kind == "Gauge32"
    ensures ParseValue(kind + ": " + IntText(n)) == NumberValue(n)
  {
    hide ParseValue, IntText, Strip, PyInt;
    var rest := " " + IntText(n);
    ReadKind(kind, kind + ":", rest);
    IntTextTrimmed(n);
    StripOneSpace(IntText(n));
    PyIntText(n);
    KindedNumber(kind, IntText(n), n);
    assert kind + ": " + IntText(n) == kind + ":" + rest;
  }

  /** `Unsigned32`, `Counter64` or `Integer32` by size; what fits none of them raises. */
  function NumberValue(n: int): Result<Value> {
    if n < -0x8000_0000 || n >= 0x1_0000_0000_0000_0000 then Raised
    else Ok(if n < 0 then Integer32(n) else if n < 0x1_0000_0000 then Unsigned32(n) else Counter64(n))
  }

  lemma KindedNumber(kind: string, part: string, n: int)
    requires (kind == "INTEGER" || kind == "Gauge32") && PyInt(part) == Some(n)
    ensures KindedValue(kind, part) == NumberValue(n)
  {
    hide PyInt;
    assert |kind| != |"Hex-STRING"|;
  }

  /** A bare number is typed alike. */
  lemma ReadBare(n: int)
    ensures ParseValue(IntText(n)) == NumberValue(n)
  {
    var v := IntText(n);
    DecimalDigits(if n < 0 then -n else n);
    PyIntText(n);
    assert forall i :: 0 <= i < |v| ==> v[i] == '-' || IsDigit(v[i]);
    hide IntText, PyInt, NamesKind;
    NoColon(v);
    assert |v| >= 2 ==> v[1] != 'x';
  }

  lemma NoColon(v: string)
    requires ':' !in v
    ensures FindFirst(v, ":").None?
  {
    var r := FindFirst(v, ":");
    assert r.Some? ==> OccursAt(v, ":", r.value);
    if r.Some? {
      OccursHead(v, ":", r.value);
    }
  }

  /** Octets after `0x`. */
  lemma ReadBareHex(octets: seq<int>)
    requires AreOctets(octets) && octets != []
    ensures ParseValue("0x" + LowerHex(octets)) == Ok(Octets(octets))
  {
    hide FromHex, NamesKind, FindFirst, PyInt;
    var v := "0x" + LowerHex(octets);
    ReadLowerHex(octets);
    hide LowerHex;
    assert v[2..] == LowerHex(octets);
    assert forall i :: 2 <= i < |v| ==> v[i] == LowerHex(octets)[i - 2];
    assert ':' !in v;
    NoColon(v);
  }

  lemma NoHex()
    ensures FromHex("") == Ok([])
  {}

  lemma FromHexPair(a: char, b: char, rest: string)
    requires IsHexDigit(a) && IsHexDigit(b) && FromHex(rest).Ok?
    ensures FromHex([a, b] + rest) == Ok([16 * HexValue(a) + HexValue(b)] + FromHex(rest).value)
  {
    assert ([a, b] + rest)[2..] == rest;
  }

  lemma {:induction false} ReadLowerHex(octets: seq<int>)
    requires AreOctets(octets)
    ensures var s := LowerHex(octets);
            FromHex(s) == Ok(octets) && |s| == 2 * |octets| && forall i :: 0 <= i < |s| ==> IsHexDigit(s[i])
  {
    hide FromHex;
    if octets == [] {
      NoHex();
    }
    if octets != [] {
      var a, b := LowerDigit(octets[0] / 16), LowerDigit(octets[0] % 16);
      var rest := LowerHex(octets[1..]);
      ReadLowerHex(octets[1..]);
      assert 16 * HexValue(a) + HexValue(b) == octets[0];
      FromHexPair(a, b, rest);
      assert LowerHex(octets) == [a, b] + rest;
      assert octets == [octets[0]] + octets[1..];
    }
  }

  /** A text that looks like nothing else is kept as it is. */
  lemma ReadPlain(octets: seq<int>)
    requires Printable(Plain(octets))
    ensures ParseValue(Chars(octets)) == Ok(Octets(octets))
  {
    hide Chars, TextOctets, FindFirst, PyInt;
    ReadText(octets);
    NoHexKind(Chars(octets));
  }

  /** `Hex-STRING:` contains `STRING:`. */
  lemma NoHexKind(v: string)
    requires !Contains(v, "STRING:")
    ensures !Contains(v, "Hex-STRING:")
  {
    var r := FindFirst(v, "Hex-STRING:");
    if r.Some? {
      var k := r.value;
      assert v[k + 4..k + 11] == v[k..k + 11][4..];
      assert OccursAt(v, "STRING:", k + 4);
    }
  }

  /** Under any other type name, where the column does name a known one, the text is kept. */
  lemma ReadOtherKind(kind: string, rest: string)
    requires ':' !in kind && Trimmed(kind, IsSpace) && NamesKind(kind + ":" + rest)
    requires kind !in {"Hex-STRING", "STRING", "INTEGER", "Gauge32"}
    ensures ParseValue(kind + ":" + rest) == AsOctets(TextOctets(Strip(rest)))
  {
    hide NamesKind, FindFirst, Strip, TextOctets;
    KindOf(kind, rest);
  }

  /** Characters outside ISO 8859-1, and only they, make a text an error. */
  lemma {:induction false} TextRaisesIff(s: string)
    ensures TextOctets(s).Raised? <==> exists i :: 0 <= i < |s| && s[i] as int > 255
  {
    if s != "" {
      TextRaisesIff(s[1..]);
      assert forall i :: 0 <= i < |s[1..]| ==> s[1..][i] == s[i + 1];
      if i :| 0 <= i < |s| && s[i] as int > 255 {
        assert i > 0 ==> s[1..][i - 1] as int > 255;
      }
    }
  }

  /** Hexadecimal text without white space is read exactly if it is made of digits in pairs. */
  lemma {:induction false} HexReadsIff(s: string)
    requires forall i :: 0 <= i < |s| ==> !IsAsciiSpace(s[i])
    ensures FromHex(s).Ok? <==> |s| % 2 == 0 && forall i :: 0 <= i < |s| ==> IsHexDigit(s[i])
    decreases |s|
  {
    if |s| >= 2 {
      HexReadsIff(s[2..]);
      assert forall i :: 0 <= i < |s[2..]| ==> s[2..][i] == s[i + 2];
      assert (forall i :: 0 <= i < |s| ==> IsHexDigit(s[i])) <==>
             IsHexDigit(s[0]) && IsHexDigit(s[1]) && forall i :: 0 <= i < |s[2..]| ==> IsHexDigit(s[2..][i]) by {
        if IsHexDigit(s[0]) && IsHexDigit(s[1]) && forall i :: 0 <= i < |s[2..]| ==> IsHexDigit(s[2..][i]) {
          forall i | 0 <= i < |s| ensures IsHexDigit(s[i]) {
            assert i >= 2 ==> s[i] == s[2..][i - 2];
          }
        }
      }
    }
  }

  lemma ReadHex(octets: seq<int>)
    requires Printable(Hex(octets))
    ensures ParseValue(PrintValue(Hex(octets))) == Ok(Octets(octets))
  {
    hide ParseValue, Strip, HexPairs;
    ReadKind("Hex-STRING", "Hex-STRING:", HexPairs(octets));
    ReadHexColumn(octets);
  }

  lemma ReadHexColumn(octets: seq<int>)
    requires AreOctets(octets)
    ensures FromHex(DropSpaces(Strip(HexPairs(octets)))) == Ok(octets)
  {
    var pairs := HexPairs(octets);
    ReadHexPairs(octets);
    if octets != [] {
      hide *;
      HexPairsEnds(octets);
      DropFirstSpace(pairs);
    }
  }

  lemma DropFirstSpace(s: string)
    requires |s| >= 3 && s[0] == ' ' && !IsSpace(s[1]) && !IsSpace(s[|s| - 1])
    ensures DropSpaces(Strip(s)) == DropSpaces(s)
  {
    var body := s[1..];
    assert s == " " + body + "";
    StripPadded(" ", body, "", IsSpace);
  }

  lemma ReadString(octets: seq<int>)
    requires Printable(Text(octets))
    ensures ParseValue(PrintValue(Text(octets))) == Ok(Octets(octets))
  {
    hide ParseValue, Strip, TextOctets;
    var quoted := "\"" + Chars(octets) + "\"";
    ReadKind("STRING", "STRING:", " " + quoted);
    assert "STRING: \"" + Chars(octets) + "\"" == "STRING:" + (" " + quoted);
    StripOneSpace(quoted);
    assert quoted[1..|quoted| - 1] == Chars(octets);
    ReadText(octets);
  }

  lemma ReadUnquoted(octets: seq<int>)
    requires Printable(Unquoted(octets))
    ensures ParseValue("STRING: " + Chars(octets)) == Ok(Octets(octets))
  {
    hide ParseValue, Strip, TextOctets;
    ReadText(octets);
    var text := Chars(octets);
    assert text[0] != '"';
    hide Chars;
    ReadKind("STRING", "STRING:", " " + text);
    assert "STRING: " + text == "STRING:" + (" " + text);
    StripOneSpace(text);
  }

  /** The split at the first colon: the kind, and the rest. */
  lemma KindOf(kind: string, rest: string)
    requires ':' !in kind && Trimmed(kind, IsSpace)
    ensures var v := kind + ":" + rest;
            FindFirst(v, ":") == Some(|kind|) && Strip(v[..|kind|]) == kind && v[|kind| + 1..] == rest
  {
    FirstColon(kind, rest);
    StripTrimmed(kind, IsSpace);
  }

  // ---------------------------------------------------------------- reading back a line

  /** Name characters and dots: no white space, no line break. */
  predicate NameChars(s: string) { forall i :: 0 <= i < |s| ==> IsNameChar(s[i]) || s[i] == '.' }

  lemma NameCharsJoin(a: string, b: string)
    requires NameChars(a) && NameChars(b)
    ensures NameChars(a + b)
  {}

  lemma NameCharsAre(s: string)
    requires s != "" && NameChars(s)
    ensures Trimmed(s, IsSpace) && NoBreak(s) && ' ' !in s
  {
    forall i | 0 <= i < |s| ensures !IsSpace(s[i]) && !IsLineBreak(s[i]) {
      assert IsNameChar(s[i]) || s[i] == '.';
    }
  }

  lemma OidTextShape(oid: Oid)
    requires oid != []
    ensures var s := OidText(oid);
            && s != "" && IsDigit(s[0]) && (forall i :: 0 <= i < |s| ==> IsDigit(s[i]) || s[i] == '.')
            && NameChars(s) && (|oid| >= 2 ==> NumericFull(s))
  {
    forall i | 0 <= i < |oid| ensures Digits(Components(oid)[i]) {
      DecimalDigits(oid[i]);
    }
    JoinDigits(Components(oid));
    ComponentsSplit(oid);
    JoinEnds(Components(oid));
  }

  lemma NumericStays(s: string, table: map<string, string>)
    requires s != "" && IsDigit(s[0]) && NumericFull(s)
    requires forall i :: 0 <= i < |s| ==> IsDigit(s[i]) || s[i] == '.'
    ensures NormalizeOid(s, table) == s
  {
    hide NumericFull, ResolveOid;
    assert s[..|s|] == s;
    assert NumericPrefix(s);
    NoModule(s);
    assert !("iso." <= s);
  }

  lemma NoModule(s: string)
    requires ':' !in s
    ensures FindFirst(s, "::").None?
  {
    var r := FindFirst(s, "::");
    if r.Some? {
      OccursHead(s, "::", r.value);
    }
  }

  /** `iso.` stands for the first number of every identifier. */
  lemma IsoBecomesOne(tail: Oid, table: map<string, string>)
    requires tail != []
    ensures NormalizeOid("iso." + OidText(tail), table) == OidText([1] + tail)
  {
    hide ResolveOid, FindFirst, NumericPrefix, OidText;
    var text := "iso." + OidText(tail);
    assert text[3..] == "." + OidText(tail);
    OneFirst(tail);
    assert "1" + ("." + OidText(tail)) == "1." + OidText(tail);
  }

  lemma OneFirst(tail: Oid)
    requires tail != []
    ensures OidText([1] + tail) == "1." + OidText(tail)
  {
    assert Components([1] + tail)[0] == "1";
    assert Components([1] + tail)[1..] == Components(tail);
  }

  /** A known symbol becomes its number and keeps its index; the module before it is dropped. */
  lemma SymbolResolves(mib: Option<string>, base: string, index: Oid, table: map<string, string>)
    requires NamePrintable(Symbol(mib, base, index)) && base in table
    ensures NormalizeOid(NameText(Symbol(mib, base, index)), table) == table[base] + IndexText(index)
  {
    hide FindFirst, Resolve, Strip, NumericPrefix, IndexText;
    var text := NameText(Symbol(mib, base, index));
    var name := base + IndexText(index);
    SymbolShape(base, index);
    NameCharsAre(name);
    StripIdle(name);
    NotNumeric(name);
    IndexShape(index);
    ResolvesKnownNames(base, IndexText(index), table, IsNameChar);
    if mib.Some? {
      assert text == mib.value + "::" + name;
      FindAfter(mib.value, "::", name);
      assert text[|mib.value| + 2..] == name;
      ModuleIsNotIso(mib.value, name);
    } else {
      assert text == name;
      NoModule(name);
      IsoIsBase(base, IndexText(index));
    }
  }

  lemma ModuleIsNotIso(mib: string, name: string)
    requires Identifier(mib)
    ensures !("iso." <= mib + "::" + name)
  {
    var s := mib + "::" + name;
    assert forall i :: 0 <= i < |mib| ==> s[i] == mib[i] && IsNameChar(mib[i]);
    assert s[|mib|] == ':' && s[|mib| + 1] == ':';
    assert |mib| > 3 ==> s[3] != '.';
    assert "iso."[0] == 'i' && "iso."[1] == 's' && "iso."[2] == 'o' && "iso."[3] == '.';
  }

  lemma IsoIsBase(base: string, suffix: string)
    requires Identifier(base) && base != "iso" && (suffix == "" || suffix[0] == '.')
    ensures !("iso." <= base + suffix)
  {
    var s := base + suffix;
    assert |base| > 3 ==> s[3] == base[3];
    assert |base| < 3 && suffix != "" ==> s[|base|] == '.';
    assert |base| == 3 ==> s[..3] == base;
    assert "iso." <= s ==> s[..3] == "iso" by {
      assert "iso."[..3] == "iso";
    }
  }

  lemma IndexShape(index: Oid)
    ensures var s := IndexText(index);
            (s == "" || (s[0] == '.' && |s| >= 2 && '\n' !in s)) && NameChars(s) && ':' !in s
  {
    if index != [] {
      OidTextShape(index);
    }
  }

  lemma SymbolShape(base: string, index: Oid)
    requires Identifier(base)
    ensures var s := base + IndexText(index);
            s != "" && NameChars(s) && ':' !in s && s[0] == base[0]
  {
    hide IndexText;
    IndexShape(index);
  }

  /** What starts with a letter is no number. */
  lemma NotNumeric(s: string)
    requires s != "" && ('a' <= s[0] <= 'z' || 'A' <= s[0] <= 'Z')
    ensures !NumericPrefix(s) && !NumericFull(s)
  {
    forall i | 0 <= i <= |s| ensures !NumericFull(s[..i]) {
      NumericHead(s[..i]);
      assert i > 0 ==> s[..i][0] == s[0];
    }
    assert s[..|s|] == s;
  }

  lemma NumericHead(v: string)
    ensures NumericFull(v) ==> v != "" && (IsDigit(v[0]) || v[0] == '.')
  {
    if NumericFull(v) {
      NumericShape(v);
    }
  }

  /** A printed name is one word, and it is read as the number it stands for. */
  lemma ReadName(name: Name, table: map<string, string>)
    requires NamePrintable(name) && Known(name, table)
    ensures NormalizeOid(NameText(name), table) == NameMeaning(name, table)
    ensures NameText(name) != "" && NameChars(NameText(name))
  {
    hide NormalizeOid, NumericFull, IndexText, OidText;
    match name
    case Dotted(oid) =>
      OidTextShape(oid);
      NumericStays(OidText(oid), table);
    case Iso(tail) =>
      OidTextShape(tail);
      IsoBecomesOne(tail, table);
      NameCharsJoin("iso.", OidText(tail));
    case Symbol(mib, base, index) =>
      SymbolShape(base, index);
      SymbolResolves(mib, base, index, table);
      if mib.Some? {
        NameCharsJoin(mib.value, "::");
        NameCharsJoin(mib.value + "::", base + IndexText(index));
        assert NameText(name) == mib.value + "::" + (base + IndexText(index));
      } else {
        assert NameText(name) == base + IndexText(index);
      }
  }

  lemma CharsHaveNoBreak(octets: seq<int>)
    requires Printable(Text(octets))
    ensures NoBreak(Chars(octets))
  {}

  predicate NoBreak(s: string) { forall i :: 0 <= i < |s| ==> !IsLineBreak(s[i]) }

  lemma NoBreakAppend(a: string, b: string)
    requires NoBreak(a) && NoBreak(b)
    ensures NoBreak(a + b)
  {}

  lemma NumberShape(kind: string, n: int)
    requires kind in {"INTEGER: ", "Gauge32: ", ""}
    ensures InColumn(kind + IntText(n))
  {
    var s := IntText(n);
    IntTextTrimmed(n);
    DecimalDigits(if n < 0 then -n else n);
    assert NoBreak(s);
    assert NoBreak(kind);
    NoBreakAppend(kind, s);
    hide IntText;
    var v := kind + s;
    assert v[0] == (if kind == "" then s[0] else kind[0]) && v[|v| - 1] == s[|s| - 1];
  }

  lemma TextShape(octets: seq<int>)
    requires Printable(Text(octets))
    ensures InColumn("STRING: \"" + Chars(octets) + "\"")
  {
    CharsHaveNoBreak(octets);
    hide Chars;
    NoBreakAppend("STRING: \"", Chars(octets));
    NoBreakAppend("STRING: \"" + Chars(octets), "\"");
    var v := "STRING: \"" + Chars(octets) + "\"";
    assert v[0] == 'S' && v[|v| - 1] == '"';
  }

  lemma UnquotedShape(octets: seq<int>)
    requires Printable(Unquoted(octets))
    ensures InColumn("STRING: " + Chars(octets))
  {
    hide Chars;
    var text := Chars(octets);
    NoBreakAppend("STRING: ", text);
    var v := "STRING: " + text;
    assert v[0] == 'S' && v[|v| - 1] == text[|text| - 1];
  }

  lemma BareHexShape(octets: seq<int>)
    requires AreOctets(octets)
    ensures InColumn("0x" + LowerHex(octets))
  {
    var s := "0x" + LowerHex(octets);
    ReadLowerHex(octets);
    assert forall i :: 2 <= i < |s| ==> s[i] == LowerHex(octets)[i - 2];
    hide LowerHex;
    assert forall i :: 0 <= i < |s| ==> s[i] == 'x' || IsHexDigit(s[i]);
  }

  lemma HexShape(octets: seq<int>)
    requires AreOctets(octets)
    ensures InColumn("Hex-STRING:" + HexPairs(octets))
  {
    var s := HexPairs(octets);
    HexPairsEnds(octets);
    NoBreakAppend("Hex-STRING:", s);
    hide HexPairs;
    var v := "Hex-STRING:" + s;
    assert v[0] == 'H' && v[|v| - 1] == if octets == [] then ':' else s[|s| - 1];
  }

  /** A printed value is not empty, needs no stripping, and stays on one line. */
  lemma PrintedShape(p: Printed)
    requires Printable(p)
    ensures InColumn(PrintValue(p))
  {
    hide InColumn, Chars, IntText, HexPairs, LowerHex;
    match p
    case Number(n) => NumberShape("INTEGER: ", n);
    case Gauge(n) => NumberShape("Gauge32: ", n);
    case Bare(n) =>
      NumberShape("", n);
      assert "" + IntText(n) == IntText(n);
    case Text(octets) => TextShape(octets);
    case Unquoted(octets) => UnquotedShape(octets);
    case Plain(octets) =>
    case Hex(octets) => HexShape(octets);
    case BareHex(octets) => BareHexShape(octets);
  }

  /** Each of the eight forms reads back as the typed value it was printed from. */
  lemma ReadValue(p: Printed)
    requires Printable(p)
    ensures ParseValue(PrintValue(p)) == Ok(Meaning(p))
  {
    hide ParseValue, InColumn, Chars, IntText, HexPairs, LowerHex;
    match p
    case Number(n) =>
      ReadNumber("INTEGER", n);
      assert "INTEGER" + ": " == "INTEGER: ";
    case Gauge(n) =>
      ReadNumber("Gauge32", n);
      assert "Gauge32" + ": " == "Gauge32: ";
    case Bare(n) => ReadBare(n);
    case Text(octets) => ReadString(octets);
    case Unquoted(octets) => ReadUnquoted(octets);
    case Plain(octets) => ReadPlain(octets);
    case Hex(octets) => ReadHex(octets);
    case BareHex(octets) => ReadBareHex(octets);
  }

  /** A printed line is one line, and parses to the binding it was printed from. */
  lemma ReadLine(name: Name, p: Printed, table: map<string, string>)
    requires NamePrintable(name) && Known(name, table) && Printable(p)
    ensures ParseLine(PrintLine(name, p), table) == Ok([AgentVarBind(NameMeaning(name, table), Meaning(p))])
    ensures PrintLine(name, p) != "" && NoBreak(PrintLine(name, p))
  {
    hide ParseValue, PrintValue, NameText, NameMeaning, NormalizeOid, Strip, FindFirst, Meaning, NameChars, Printable;
    var o, v, line := NameText(name), PrintValue(p), PrintLine(name, p);
    ReadName(name, table);
    NameCharsAre(o);
    PrintedShape(p);
    FindAfter(o, " = ", v);
    assert line[..|o|] == o && line[|o| + 3..] == v;
    assert line[|line| - 1] == v[|v| - 1];
    StripIdle(line);
    StripIdle(v);
    ReadValue(p);
    NoBreakAppend(o, " = ");
    NoBreakAppend(o + " = ", v);
  }

  // ---------------------------------------------------------------- the round trip

  ghost predicate AllPrintable(items: seq<(Name, Printed)>) {
    forall i :: 0 <= i < |items| ==> NamePrintable(items[i].0) && Printable(items[i].1)
  }

  ghost predicate AllKnown(items: seq<(Name, Printed)>, table: map<string, string>) {
    forall i :: 0 <= i < |items| ==> Known(items[i].0, table)
  }

  /** The lines of the bindings, joined by line feeds. */
  ghost function PrintOutput(items: seq<(Name, Printed)>): string
    requires AllPrintable(items)
  {
    if items == [] then ""
    else if |items| == 1 then PrintLine(items[0].0, items[0].1)
    else PrintLine(items[0].0, items[0].1) + "\n" + PrintOutput(items[1..])
  }

  ghost function Bindings(items: seq<(Name, Printed)>, table: map<string, string>): seq<AgentVarBind>
    requires AllPrintable(items) && AllKnown(items, table)
  {
    seq(|items|, i requires 0 <= i < |items| => AgentVarBind(NameMeaning(items[i].0, table), Meaning(items[i].1)))
  }

  lemma OneLine(line: string, table: map<string, string>)
    requires line != "" && NoBreak(line)
    ensures ParseOutput(line, table) == ParseLine(line, table)
  {
    hide ParseLine;
    WholeLine(line);
    assert SplitLines(line) == [line] + [];
    ParseCons(line, [], table);
    BothAssoc(ParseLine(line, table), Ok([]), Ok([]));
  }

  lemma EmptyOutput(table: map<string, string>)
    ensures ParseOutput("", table) == Ok([])
  {}

  /** Parsing undoes printing, in either form and mixed: the same identifiers and values, in order. */
  lemma {:induction false} ParseUndoesPrint(items: seq<(Name, Printed)>, table: map<string, string>)
    requires AllPrintable(items) && AllKnown(items, table)
    ensures ParseOutput(PrintOutput(items), table) == Ok(Bindings(items, table))
  {
    hide ParseLine, ParseOutput, NameMeaning, Meaning, PrintLine, Printable, NamePrintable, Known;
    EmptyOutput(table);
    if items == [] {
      assert Bindings(items, table) == [];
    } else {
      var line := PrintLine(items[0].0, items[0].1);
      var first := [AgentVarBind(NameMeaning(items[0].0, table), Meaning(items[0].1))];
      ReadLine(items[0].0, items[0].1, table);
      OneLine(line, table);
      assert Bindings(items, table) == first + Bindings(items[1..], table);
      if |items| == 1 {
        assert Bindings(items, table) == first;
      } else {
        ParseUndoesPrint(items[1..], table);
        ParseJoined(line, PrintOutput(items[1..]), table);
      }
    }
  }
}
