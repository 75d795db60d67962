/**
The two resolvers of symbolic OID names: `Snmp_v2c.resolve_oid` of the direct client and `_resolve_oid` of the agent
transport. They differ in one character of their patterns; this is what they do and exactly where they disagree.
*/
module OidNames {
  import opened PyText

  type OidTable = map<string, string>

  predicate Digits(s: string) { s != "" && forall i :: 0 <= i < |s| ==> IsDigit(s[i]) }

  /** `fullmatch` of the numeric pattern: an optional dot, then two or more numbers with dots between. */
  predicate NumericFull(s: string) {
    var parts := Split(if s != "" && s[0] == '.' then s[1..] else s, '.');
    |parts| >= 2 && forall i :: 0 <= i < |parts| ==> Digits(parts[i])
  }

  /** `match` of the numeric pattern: some prefix is numeric. */
  predicate NumericPrefix(s: string) {
    exists i :: 0 <= i <= |s| && NumericFull(s[..i])
  }

  /** The name characters of the direct client. */
  predicate IsClientNameChar(c: char) {
    'a' <= c <= 'z' || 'A' <= c <= 'Z' || IsDigit(c) || c == '_' || c == ':'
  }

  /** The name characters of the agent transport: a hyphen counts too. */
  predicate IsNameChar(c: char) { IsClientNameChar(c) || c == '-' }

  /** The longest prefix of name characters. */
  function NamePrefix(s: string, name: char -> bool): (p: string)
    ensures |p| <= |s|
  {
    if s == "" || !name(s[0]) then "" else [s[0]] + NamePrefix(s[1..], name)
  }

  /** What follows the name, up to where `$` matches: before a final line break, if there is one. */
  function Suffix(oid: string, name: char -> bool): string {
    var rest := oid[|NamePrefix(oid, name)|..];
    if rest != "" && rest[|rest| - 1] == '\n' then rest[..|rest| - 1] else rest
  }

  /** The symbolic pattern matches: a name, then nothing or a dot and more on the same line. */
  predicate Matches(oid: string, name: char -> bool) {
    var suffix := Suffix(oid, name);
    NamePrefix(oid, name) != "" && (suffix == "" || (suffix[0] == '.' && |suffix| >= 2 && '\n' !in suffix))
  }

  function NumberOf(base: string, table: OidTable): string { if base in table then table[base] else base }

  function Resolve(oid: string, table: OidTable, name: char -> bool): string {
    if NumericFull(oid) || !Matches(oid, name) then oid
    else NumberOf(NamePrefix(oid, name), table) + Suffix(oid, name)
  }

  /** `Snmp_v2c.resolve_oid` on text, with the compiled OID table as a parameter. */
  function ResolveClient(oid: string, table: OidTable): string { Resolve(oid, table, IsClientNameChar) }

  /** A table of numbers under names. */
  ghost predicate Sound(table: OidTable) {
    forall k :: k in table ==> NumericFull(table[k]) && !Digits(k)
  }

  /** Digits are name characters, dots and line breaks are not. */
  ghost predicate NameClass(name: char -> bool) {
    (forall c :: IsDigit(c) ==> name(c)) && !name('.') && !name('\n')
  }

  // ---------------------------------------------------------------- shapes

  lemma {:induction false} NamePrefixShape(s: string, name: char -> bool)
    ensures var p := NamePrefix(s, name);
            && p == s[..|p|]
            && (forall i :: 0 <= i < |p| ==> name(p[i]))
            && (|p| < |s| ==> !name(s[|p|]))
  {
    if s != "" && name(s[0]) {
      NamePrefixShape(s[1..], name);
    }
  }

  lemma {:induction false} NamePrefixIs(p: string, rest: string, name: char -> bool)
    requires forall i :: 0 <= i < |p| ==> name(p[i])
    requires rest != "" ==> !name(rest[0])
    ensures NamePrefix(p + rest, name) == p
  {
    if p == "" {
      assert p + rest == rest;
    } else {
      assert (p + rest)[1..] == p[1..] + rest;
      NamePrefixIs(p[1..], rest, name);
    }
  }

  lemma {:induction false} JoinDigits(parts: seq<string>)
    requires |parts| >= 1
    requires forall i :: 0 <= i < |parts| ==> Digits(parts[i])
    ensures forall i :: 0 <= i < |Join(parts, '.')| ==> IsDigit(Join(parts, '.')[i]) || Join(parts, '.')[i] == '.'
  {
    if |parts| > 1 {
      JoinDigits(parts[1..]);
    }
  }

  /** A numeric text is digits and dots; without its leading dot it is a number, a dot and more. */
  lemma NumericShape(v: string)
    requires NumericFull(v)
    ensures forall i :: 0 <= i < |v| ==> IsDigit(v[i]) || v[i] == '.'
    ensures v != "" && (v[0] != '.' ==> exists d :: 0 < d < |v| && Digits(v[..d]) && v[d] == '.')
  {
    var u := if v != "" && v[0] == '.' then v[1..] else v;
    var parts := Split(u, '.');
    JoinSplit(u, '.');
    JoinDigits(parts);
    var d := |parts[0]|;
    assert u == parts[0] + "." + Join(parts[1..], '.');
    assert u[..d] == parts[0] && u[d] == '.';
  }

  /** The documented reading: a known name becomes its number and keeps its numeric or other suffix. */
  lemma ResolvesKnownNames(base: string, suffix: string, table: OidTable, name: char -> bool)
    requires base in table && base != "" && (forall i :: 0 <= i < |base| ==> name(base[i])) && NameClass(name)
    requires suffix == "" || (suffix[0] == '.' && |suffix| >= 2 && '\n' !in suffix)
    requires !NumericFull(base + suffix)
    ensures Resolve(base + suffix, table, name) == table[base] + suffix
  {
    hide NumericFull;
    NamePrefixIs(base, suffix, name);
    assert (base + suffix)[|base|..] == suffix;
  }

  /** Every other text stays: a number, a name the table lacks, and what the pattern does not match. */
  lemma OthersStay(oid: string, base: string, suffix: string, table: OidTable, name: char -> bool)
    ensures NumericFull(oid) ==> Resolve(oid, table, name) == oid
    ensures oid == base + suffix && base !in table && base != "" && (forall i :: 0 <= i < |base| ==> name(base[i]))
            && NameClass(name) && (suffix == "" || (suffix[0] == '.' && |suffix| >= 2 && '\n' !in suffix)) ==>
              Resolve(oid, table, name) == oid
    ensures oid == "" || !name(oid[0]) ==> Resolve(oid, table, name) == oid
  {
    hide NumericFull;
    if base != "" && (forall i :: 0 <= i < |base| ==> name(base[i])) && NameClass(name)
       && (suffix == "" || (suffix[0] == '.' && |suffix| >= 2 && '\n' !in suffix)) {
      NamePrefixIs(base, suffix, name);
      assert (base + suffix)[|base|..] == suffix;
    }
  }

  // ---------------------------------------------------------------- resolving twice

  lemma ResolvedNumberStays(v: string, suffix: string, table: OidTable, name: char -> bool)
    requires Sound(table) && NameClass(name) && NumericFull(v)
    requires suffix == "" || (suffix[0] == '.' && |suffix| >= 2 && '\n' !in suffix)
    ensures Resolve(v + suffix, table, name) == v + suffix
  {
    hide NumericFull;
    var r := v + suffix;
    NumericShape(v);
    if v[0] != '.' {
      var d :| 0 < d < |v| && Digits(v[..d]) && v[d] == '.';
      assert r == v[..d] + r[d..];
      NamePrefixIs(v[..d], r[d..], name);
      assert r[|r| - 1] != '\n';
    }
  }

  /** Resolving a resolved name changes nothing. */
  lemma ResolveIdempotent(oid: string, table: OidTable, name: char -> bool)
    requires Sound(table) && NameClass(name)
    ensures var r := Resolve(oid, table, name); Resolve(r, table, name) == r
  {
    hide NumericFull;
    if !NumericFull(oid) && Matches(oid, name) {
      var base, suffix := NamePrefix(oid, name), Suffix(oid, name);
      if base in table {
        ResolvedNumberStays(table[base], suffix, table, name);
      } else {
        NamePrefixShape(oid, name);
        NamePrefixIs(base, suffix, name);
        assert (base + suffix)[|base|..] == suffix;
      }
    }
  }

  // ---------------------------------------------------------------- client against transport

  /** The name the transport reads has a hyphen, and resolving it changes the text. */
  predicate HyphenMatters(oid: string, table: OidTable) {
    var base := NamePrefix(oid, IsNameChar);
    '-' in base && Matches(oid, IsNameChar) && (base in table || oid[|oid| - 1] == '\n')
  }

  lemma {:induction false} NameStops(s: string, name: char -> bool, p: nat)
    requires p < |s| && !name(s[p])
    ensures |NamePrefix(s, name)| <= p
  {
    if p > 0 {
      NameStops(s[1..], name, p - 1);
    }
  }

  /** The client stops at the hyphen, finds no suffix there, and gives the text back. */
  lemma ClientStopsAtHyphen(oid: string, table: OidTable)
    requires '-' in NamePrefix(oid, IsNameChar)
    ensures ResolveClient(oid, table) == oid && !NumericFull(oid)
  {
    hide NumericFull;
    var base, q := NamePrefix(oid, IsNameChar), NamePrefix(oid, IsClientNameChar);
    NamePrefixShape(oid, IsNameChar);
    NamePrefixShape(oid, IsClientNameChar);
    var p :| 0 <= p < |base| && base[p] == '-';
    assert oid[p] == '-';
    NameStops(oid, IsClientNameChar, p);
    assert oid[|q|] == base[|q|];
    assert oid[|q|..][0] == '-';
    if NumericFull(oid) {
      NumericShape(oid);
    }
  }

  lemma NumberDiffers(v: string, suffix: string, oid: string, base: string)
    requires NumericFull(v) && base <= oid && '-' in base && '.' !in base
    ensures v + suffix != oid
  {
    hide NumericFull;
    NumericShape(v);
    var p :| 0 <= p < |base| && base[p] == '-';
    if p < |v| {
      assert (v + suffix)[p] == v[p] && oid[p] == base[p];
    } else {
      var d :| 0 <= d < |v| && v[d] == '.';
      assert (v + suffix)[d] == v[d] && oid[d] == base[d];
    }
  }

  lemma {:induction false} SamePrefix(s: string)
    requires '-' !in NamePrefix(s, IsNameChar)
    ensures NamePrefix(s, IsClientNameChar) == NamePrefix(s, IsNameChar)
  {
    if s != "" && IsNameChar(s[0]) {
      assert NamePrefix(s, IsNameChar)[0] == s[0];
      SamePrefix(s[1..]);
    }
  }

  lemma AgreeWithoutHyphen(oid: string, table: OidTable)
    requires '-' !in NamePrefix(oid, IsNameChar)
    ensures ResolveClient(oid, table) == Resolve(oid, table, IsNameChar)
  {
    hide NumericFull, NamePrefix;
    SamePrefix(oid);
  }

  lemma AgreeWithHyphen(oid: string, table: OidTable)
    requires Sound(table) && '-' in NamePrefix(oid, IsNameChar)
    ensures Resolve(oid, table, IsNameChar) == oid <==> !HyphenMatters(oid, table)
  {
    hide NumericFull, NamePrefix;
    var base, suffix := NamePrefix(oid, IsNameChar), Suffix(oid, IsNameChar);
    NamePrefixShape(oid, IsNameChar);
    ClientStopsAtHyphen(oid, table);
    if base in table {
      NumberDiffers(table[base], suffix, oid, base);
    } else {
      assert oid == base + oid[|base|..];
      assert oid[|base|..] != "" ==> oid[|base|..][|oid| - |base| - 1] == oid[|oid| - 1];
    }
  }

  /** The two resolvers agree on a text exactly when no hyphened name is resolved in it. */
  lemma ResolversAgreeIff(oid: string, table: OidTable)
    requires Sound(table)
    ensures ResolveClient(oid, table) == Resolve(oid, table, IsNameChar) <==> !HyphenMatters(oid, table)
  {
    hide NumericFull, Matches;
    if '-' in NamePrefix(oid, IsNameChar) {
      ClientStopsAtHyphen(oid, table);
      AgreeWithHyphen(oid, table);
    } else {
      AgreeWithoutHyphen(oid, table);
    }
  }

  /** A hyphened name of the table, such as the shipped "mib-2", is resolved by the transport only. */
  lemma HyphenedNameIsLost(k: string, table: OidTable)
    requires k in table && '-' in k && forall i :: 0 <= i < |k| ==> IsNameChar(k[i])
    ensures ResolveClient(k, table) == k && Resolve(k, table, IsNameChar) == table[k]
  {
    hide NumericFull;
    assert k + "" == k;
    NamePrefixIs(k, "", IsNameChar);
    ClientStopsAtHyphen(k, table);
    ResolvesKnownNames(k, "", table, IsNameChar);
    assert table[k] + "" == table[k];
  }
}
