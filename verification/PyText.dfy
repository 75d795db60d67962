/** Optional values, for the source's `None`. */
module Wrappers {
  datatype Option<+T> = None | Some(value: T)

  /** The outcome of code that may raise. */
  datatype Result<+T> = Ok(value: T) | Raised
}

/**
The Python string operations that the modelled files use (`strip`, `split`, `splitlines`, `in`,
`int`), each as a function on `string` with the laws the other modules build on.
*/
module PyText {
  import opened Wrappers

  // ---------------------------------------------------------------- white space and strip

  /** `str.isspace` for one character: what `strip()` removes and what `\s` matches. */
  predicate IsSpace(c: char) {
    var n := c as int;
    9 <= n <= 13 || 28 <= n <= 32 || n == 0x85 || n == 0xA0 || n == 0x1680 || 0x2000 <= n <= 0x200A
    || n == 0x2028 || n == 0x2029 || n == 0x202F || n == 0x205F || n == 0x3000
  }

  predicate IsDot(c: char) { c == '.' }

  function StripLeft(s: string, drop: char -> bool): string {
    if s != "" && drop(s[0]) then StripLeft(s[1..], drop) else s
  }

  function StripRight(s: string, drop: char -> bool): string {
    if s != "" && drop(s[|s| - 1]) then StripRight(s[..|s| - 1], drop) else s
  }

  function StripBy(s: string, drop: char -> bool): string {
    StripRight(StripLeft(s, drop), drop)
  }

  /** `s.strip()` */
  function Strip(s: string): string { StripBy(s, IsSpace) }

  /** A string `strip` leaves alone: neither end is a dropped character. */
  predicate Trimmed(s: string, drop: char -> bool) {
    s != "" ==> !drop(s[0]) && !drop(s[|s| - 1])
  }

  lemma {:induction false} StripLeftShape(s: string, drop: char -> bool)
    ensures var r := StripLeft(s, drop);
            && |r| <= |s| && r == s[|s| - |r|..]
            && (r != "" ==> !drop(r[0]))
  {
    if s != "" && drop(s[0]) {
      StripLeftShape(s[1..], drop);
    }
  }

  lemma {:induction false} StripRightShape(s: string, drop: char -> bool)
    ensures var r := StripRight(s, drop);
            && |r| <= |s| && r == s[..|r|]
            && (r != "" ==> !drop(r[|r| - 1]))
  {
    if s != "" && drop(s[|s| - 1]) {
      StripRightShape(s[..|s| - 1], drop);
    }
  }

  /** Stripping gives a trimmed slice of its argument. */
  lemma StripShape(s: string, drop: char -> bool)
    ensures Trimmed(StripBy(s, drop), drop)
    ensures forall c :: c in StripBy(s, drop) ==> c in s
  {
    var l := StripLeft(s, drop);
    StripLeftShape(s, drop);
    StripRightShape(l, drop);
  }

  lemma StripTrimmed(s: string, drop: char -> bool)
    requires Trimmed(s, drop)
    ensures StripBy(s, drop) == s
  {}

  lemma StripIdle(s: string)
    requires Trimmed(s, IsSpace)
    ensures Strip(s) == s
  {}

  lemma {:induction false} StripLeftPad(pad: string, s: string, drop: char -> bool)
    requires forall i :: 0 <= i < |pad| ==> drop(pad[i])
    ensures StripLeft(pad + s, drop) == StripLeft(s, drop)
  {
    if pad == "" {
      assert pad + s == s;
    } else {
      assert (pad + s)[0] == pad[0];
      assert (pad + s)[1..] == pad[1..] + s;
      StripLeftPad(pad[1..], s, drop);
    }
  }

  lemma {:induction false} StripRightPad(s: string, pad: string, drop: char -> bool)
    requires forall i :: 0 <= i < |pad| ==> drop(pad[i])
    ensures StripRight(s + pad, drop) == StripRight(s, drop)
  {
    if pad == "" {
      assert s + pad == s;
    } else {
      var n := |pad| - 1;
      assert (s + pad)[|s| + n] == pad[n];
      assert (s + pad)[..|s| + n] == s + pad[..n];
      StripRightPad(s, pad[..n], drop);
    }
  }

  /** Dropped characters around a trimmed string are exactly what `strip` removes. */
  lemma StripPadded(left: string, s: string, right: string, drop: char -> bool)
    requires forall i :: 0 <= i < |left| ==> drop(left[i])
    requires forall i :: 0 <= i < |right| ==> drop(right[i])
    requires Trimmed(s, drop)
    ensures StripBy(left + s + right, drop) == s
  {
    assert left + s + right == left + (s + right);
    StripLeftPad(left, s + right, drop);
    if s == "" {
      assert s + right == right + s;
      StripLeftPad(right, s, drop);
    } else {
      StripRightPad(s, right, drop);
      assert !drop((s + right)[0]);
    }
  }

  lemma StripOneSpace(f: string)
    requires Trimmed(f, IsSpace)
    ensures Strip(" " + f) == f
  {
    StripPadded(" ", f, "", IsSpace);
    assert " " + f + "" == " " + f;
  }

  // ---------------------------------------------------------------- split and join

  /** `s.split(c)`: always at least one part. */
  function Split(s: string, c: char): (parts: seq<string>)
    ensures |parts| >= 1
  {
    if s == "" then [""]
    else
      var rest := Split(s[1..], c);
      if s[0] == c then [""] + rest else [[s[0]] + rest[0]] + rest[1..]
  }

  /** `c.join(parts)` */
  function Join(parts: seq<string>, c: char): string
    requires |parts| >= 1
  {
    if |parts| == 1 then parts[0] else parts[0] + [c] + Join(parts[1..], c)
  }

  lemma {:induction false} JoinSplit(s: string, c: char)
    ensures Join(Split(s, c), c) == s
  {
    if s != "" {
      JoinSplit(s[1..], c);
      var rest := Split(s[1..], c);
      if s[0] == c {
        assert ([""] + rest)[1..] == rest;
      } else {
        var parts := Split(s, c);
        assert parts[1..] == rest[1..];
      }
    }
  }

  lemma {:induction false} SplitAppend(a: string, b: string, c: char)
    ensures Split(a + [c] + b, c) == Split(a, c) + Split(b, c)
  {
    var s := a + [c] + b;
    if a == "" {
      assert s[1..] == b;
    } else {
      assert s[1..] == a[1..] + [c] + b;
      SplitAppend(a[1..], b, c);
    }
  }

  lemma {:induction false} SplitNoSeparator(s: string, c: char)
    requires c !in s
    ensures Split(s, c) == [s]
  {
    if s != "" {
      SplitNoSeparator(s[1..], c);
      assert s == [s[0]] + s[1..];
    }
  }

  lemma {:induction false} JoinAppend(p: seq<string>, q: seq<string>, c: char)
    requires |p| >= 1 && |q| >= 1
    ensures Join(p + q, c) == Join(p, c) + [c] + Join(q, c)
  {
    assert (p + q)[1..] == p[1..] + q;
    if |p| > 1 {
      JoinAppend(p[1..], q, c);
    }
  }

  lemma {:induction false} SplitJoin(parts: seq<string>, c: char)
    requires |parts| >= 1
    requires forall i :: 0 <= i < |parts| ==> c !in parts[i]
    ensures Split(Join(parts, c), c) == parts
  {
    SplitNoSeparator(parts[0], c);
    if |parts| > 1 {
      SplitJoin(parts[1..], c);
      SplitAppend(parts[0], Join(parts[1..], c), c);
      assert parts == [parts[0]] + parts[1..];
    }
  }

  lemma SplitPrefixOf(o: string, r: string, c: char)
    requires Split(r, c) <= Split(o, c)
    ensures o == r || r + [c] <= o
  {
    var p, q := Split(r, c), Split(o, c)[|Split(r, c)|..];
    assert Split(o, c) == p + q;
    JoinSplit(o, c);
    JoinSplit(r, c);
    if q == [] {
      assert p + q == p;
    } else {
      JoinAppend(p, q, c);
    }
  }

  lemma PrefixSplits(o: string, r: string, c: char)
    requires o == r || r + [c] <= o
    ensures Split(r, c) <= Split(o, c)
  {
    if o != r {
      assert o == r + [c] + o[|r| + 1..];
      SplitAppend(r, o[|r| + 1..], c);
    }
  }

  // ---------------------------------------------------------------- searching

  predicate OccursAt(s: string, sub: string, i: int) {
    0 <= i && i + |sub| <= |s| && s[i..i + |sub|] == sub
  }

  /** The first position of `sub` in `s`, as `s.find(sub)`. */
  function FindFirst(s: string, sub: string): (r: Option<nat>)
    ensures r.Some? ==> OccursAt(s, sub, r.value)
    ensures forall i :: OccursAt(s, sub, i) ==> r.Some? && r.value <= i
  {
    if OccursAt(s, sub, 0) then Some(0)
    else if s == "" then None
    else
      var r := FindFirst(s[1..], sub);
      assert forall i :: OccursAt(s, sub, i) ==> OccursAt(s[1..], sub, i - 1) by {
        forall i | OccursAt(s, sub, i) ensures OccursAt(s[1..], sub, i - 1) {
          assert i != 0;
          assert s[1..][i - 1..i - 1 + |sub|] == s[i..i + |sub|];
        }
      }
      if r.Some? then
        assert s[1..][r.value..r.value + |sub|] == s[r.value + 1..r.value + 1 + |sub|];
        Some(r.value + 1)
      else None
  }

  /** `sub in s` */
  predicate Contains(s: string, sub: string) { FindFirst(s, sub).Some? }

  lemma OccursHead(s: string, sub: string, i: int)
    requires OccursAt(s, sub, i) && sub != ""
    ensures s[i] == sub[0]
  {
    assert s[i..i + |sub|][0] == s[i];
  }

  /** The first occurrence of a text whose first character does not occur before. */
  lemma FindAfter(head: string, sub: string, tail: string)
    requires sub != "" && sub[0] !in head
    ensures FindFirst(head + sub + tail, sub) == Some(|head|)
  {
    var s := head + sub + tail;
    assert OccursAt(s, sub, |head|);
    forall i | OccursAt(s, sub, i) ensures i >= |head| {
      OccursHead(s, sub, i);
      assert forall j :: 0 <= j < |head| ==> s[j] in head;
    }
  }

  /** The split at the first colon. */
  lemma FirstColon(key: string, rest: string)
    requires ':' !in key
    ensures var e := key + ":" + rest;
            FindFirst(e, ":") == Some(|key|) && e[..|key|] == key && e[|key| + 1..] == rest
  {
    FindAfter(key, ":", rest);
  }

  // ---------------------------------------------------------------- numbers

  predicate IsDigit(c: char) { '0' <= c <= '9' }

  function DigitChar(d: nat): (c: char)
    requires d < 10
    ensures IsDigit(c) && c as int - '0' as int == d
  {
    (d + '0' as int) as char
  }

  /** `str(n)` for a natural number. */
  function Decimal(n: nat): string {
    if n < 10 then [DigitChar(n)] else Decimal(n / 10) + [DigitChar(n % 10)]
  }

  lemma {:induction false} DecimalDigits(n: nat)
    ensures Decimal(n) != "" && forall i :: 0 <= i < |Decimal(n)| ==> IsDigit(Decimal(n)[i])
  {
    if n >= 10 {
      DecimalDigits(n / 10);
    }
  }

  /** `str(n)` */
  function IntText(n: int): string { if n < 0 then "-" + Decimal(-n) else Decimal(n) }

  /** The digits of an `int(..)` argument: at least one, single underscores only between digits. */
  function IntBody(s: string): Option<nat> {
    if s == "" || !IsDigit(s[|s| - 1]) then None
    else
      var d := s[|s| - 1] as int - '0' as int;
      if |s| == 1 then Some(d)
      else
        var front := if s[|s| - 2] == '_' then s[..|s| - 2] else s[..|s| - 1];
        match IntBody(front)
        case None => None
        case Some(n) => Some(10 * n + d)
  }

  /** `int(s)`; `None` stands for the ValueError. */
  function PyInt(s: string): Option<int> {
    var t := Strip(s);
    if t != "" && (t[0] == '+' || t[0] == '-') then
      match IntBody(t[1..])
      case None => None
      case Some(n) => var v: int := if t[0] == '-' then 0 - n else n; Some(v)
    else
      match IntBody(t)
      case None => None
      case Some(n) => Some(n)
  }

  lemma {:induction false} IntBodyDecimal(n: nat)
    ensures IntBody(Decimal(n)) == Some(n)
  {
    if n >= 10 {
      IntBodyDecimal(n / 10);
      DecimalDigits(n / 10);
      var s := Decimal(n);
      assert s[..|s| - 1] == Decimal(n / 10);
      assert s[|s| - 2] == Decimal(n / 10)[|s| - 2];
    }
  }

  lemma DecimalInjective(m: nat, n: nat)
    ensures Decimal(m) == Decimal(n) <==> m == n
  {
    IntBodyDecimal(m);
    IntBodyDecimal(n);
  }

  lemma IntTextTrimmed(n: int)
    ensures IntText(n) != "" && Trimmed(IntText(n), IsSpace)
  {
    DecimalDigits(if n < 0 then -n else n);
    if n < 0 {
      assert IntText(n)[|IntText(n)| - 1] == Decimal(-n)[|Decimal(-n)| - 1];
    }
  }

  /** `int(str(n)) == n` */
  lemma PyIntText(n: int)
    ensures PyInt(IntText(n)) == Some(n)
  {
    IntTextTrimmed(n);
    StripTrimmed(IntText(n), IsSpace);
    if n < 0 {
      IntBodyDecimal(-n);
      assert IntText(n)[1..] == Decimal(-n);
    } else {
      IntBodyDecimal(n);
      DecimalDigits(n);
    }
  }
}
