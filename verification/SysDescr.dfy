/** `SystemDescriptor`: the parser of sysDescr texts, its printer, and exactly when they undo each other. */
module SysDescr {
  import opened Wrappers
  import opened PyText

  datatype Descriptor = Descriptor(hwRev: string, vendor: string, bootRev: string, swRev: string, model: string,
                                   isEmpty: bool)

  // ---------------------------------------------------------------- the pattern <<\s*(.*?)\s*>>

  /** `\s*>>` matches here. */
  predicate ClosesHere(s: string) { ">>" <= StripLeft(s, IsSpace) }

  /** `(.*?)\s*>>`: the shortest text, within one line, after which the pattern closes. */
  function Lazy(s: string): Option<string> {
    if ClosesHere(s) then Some("")
    else if s == "" || s[0] == '\n' then None
    else match Lazy(s[1..])
      case None => None
      case Some(rest) => Some([s[0]] + rest)
  }

  /** `_PATTERN.search(s).group(1)`: the leftmost `<<` from which the pattern matches. */
  function Search(s: string): Option<string> {
    if s == "" then None
    else if "<<" <= s && Lazy(StripLeft(s[2..], IsSpace)).Some? then Lazy(StripLeft(s[2..], IsSpace))
    else Search(s[1..])
  }

  // ---------------------------------------------------------------- entries

  /** One stripped entry: key and value around the first colon. */
  function KeyValue(entry: string): Result<(string, string)> {
    match FindFirst(entry, ":")
    case None => Raised
    case Some(k) => Ok((Strip(entry[..k]), Strip(entry[k + 1..])))
  }

  /** The dict filled from the parts of a content, in order; blank parts are skipped. */
  function Fill(parts: seq<string>): Result<map<string, string>> {
    if parts == [] then Ok(map[])
    else
      var last := Strip(parts[|parts| - 1]);
      match Fill(parts[..|parts| - 1])
      case Raised => Raised
      case Ok(data) =>
        if last == "" then Ok(data)
        else match KeyValue(last)
          case Raised => Raised
          case Ok(kv) => Ok(data[kv.0 := kv.1])
  }

  function GetOr(data: map<string, string>, key: string): string { if key in data then data[key] else "" }

  function FromData(data: map<string, string>): Descriptor {
    Descriptor(GetOr(data, "HW_REV"), GetOr(data, "VENDOR"), GetOr(data, "BOOTR"), GetOr(data, "SW_REV"),
               GetOr(data, "MODEL"),
               "HW_REV" in data && data["HW_REV"] == "")
  }

  function ParseSpec(s: string): Result<Descriptor> {
    match Search(s)
    case None => Raised
    case Some(content) =>
      match Fill(Split(content, ';'))
      case Raised => Raised
      case Ok(data) => Ok(FromData(data))
  }

  lemma {:induction false} FillFails(parts: seq<string>, n: nat)
    requires n <= |parts| && Fill(parts[..n]).Raised?
    ensures Fill(parts).Raised?
  {
    if n < |parts| {
      assert parts[..|parts| - 1][..n] == parts[..n];
      FillFails(parts[..|parts| - 1], n);
    } else {
      assert parts[..n] == parts;
    }
  }

  /** `SystemDescriptor.parse`; Raised stands for its ValueErrors. */
  method Parse(description: string) returns (r: Result<Descriptor>)
    ensures r == ParseSpec(description)
  {
    hide KeyValue;
    var content := Search(description);
    if content.None? {
      return Raised;
    }
    var parts := Split(content.value, ';');
    var data: map<string, string> := map[];
    for i := 0 to |parts|
      invariant Fill(parts[..i]) == Ok(data)
    {
      assert parts[..i + 1][..i] == parts[..i];
      var entry := Strip(parts[i]);
      if entry != "" {
        var kv := KeyValue(entry);
        if kv.Raised? {
          FillFails(parts, i + 1);
          return Raised;
        }
        data := data[kv.value.0 := kv.value.1];
      }
    }
    assert parts[..|parts|] == parts;
    return Ok(FromData(data));
  }

  /** What `__str__` prints between the arrows, cut at the semicolons. */
  function Parts(d: Descriptor): seq<string> {
    [Part("", "HW_REV", d.hwRev), Part(" ", "VENDOR", d.vendor), Part(" ", "BOOTR", d.bootRev),
     Part(" ", "SW_REV", d.swRev), Part(" ", "MODEL", d.model)]
  }

  function Part(pad: string, key: string, f: string): string { pad + key + ": " + f }

  /** `__str__` */
  function Str(d: Descriptor): string { "<< " + Join(Parts(d), ';') + " >>" }

  // ---------------------------------------------------------------- what parses

  /** The lazy group matches exactly if the pattern closes somewhere before the line ends. */
  lemma {:induction false} LazyIff(s: string)
    ensures Lazy(s).Some? <==> exists i :: 0 <= i <= |s| && ClosesHere(s[i..]) && '\n' !in s[..i]
  {
    hide ClosesHere;
    assert s[0..] == s && '\n' !in s[..0];
    if s != "" {
      LazyIff(s[1..]);
      assert forall i :: 1 <= i <= |s| ==> s[i..] == s[1..][i - 1..] && s[..i] == [s[0]] + s[1..][..i - 1];
      if s[0] != '\n' {
        if i :| 0 <= i <= |s[1..]| && ClosesHere(s[1..][i..]) && '\n' !in s[1..][..i] {
          assert s[i + 1..] == s[1..][i..];
        }
        if i :| 1 <= i <= |s| && ClosesHere(s[i..]) && '\n' !in s[..i] {
          assert s[..i] == [s[0]] + s[1..][..i - 1];
        }
      }
    }
  }

  /** The pattern is found exactly if it matches from some opening arrow. */
  lemma {:induction false} SearchIff(s: string)
    ensures Search(s).Some? <==>
              exists i :: 0 <= i <= |s| && "<<" <= s[i..] && Lazy(StripLeft(s[i..][2..], IsSpace)).Some?
  {
    hide Lazy;
    assert s[0..] == s;
    if s != "" {
      SearchIff(s[1..]);
      assert forall i :: 1 <= i <= |s| ==> s[i..] == s[1..][i - 1..];
      if i :| 0 <= i <= |s[1..]| && "<<" <= s[1..][i..] && Lazy(StripLeft(s[1..][i..][2..], IsSpace)).Some? {
        assert s[i + 1..] == s[1..][i..];
      }
    }
  }

  /** A part that is not blank has no colon. */
  predicate NoEntry(part: string) { Strip(part) != "" && ':' !in Strip(part) }

  /** A text raises exactly if the pattern is not found or one of its parts is no entry. */
  lemma ParseRaisesIff(s: string)
    ensures ParseSpec(s).Raised? <==> Search(s).None? || exists p :: p in Split(Search(s).value, ';') && NoEntry(p)
  {
    hide Search, Fill, Split, NoEntry;
    if Search(s).Some? {
      FillRaisesIff(Split(Search(s).value, ';'));
    }
  }

  lemma {:induction false} FillRaisesIff(parts: seq<string>)
    ensures Fill(parts).Raised? <==> exists p :: p in parts && NoEntry(p)
  {
    hide Strip;
    if parts != [] {
      var front, n := parts[..|parts| - 1], |parts| - 1;
      FillRaisesIff(front);
      HasColon(Strip(parts[n]));
      assert forall p :: p in parts <==> p in front || p == parts[n] by {
        assert parts == front + [parts[n]];
      }
      assert NoEntry(parts[n]) <==> Strip(parts[n]) != "" && KeyValue(Strip(parts[n])).Raised?;
    }
  }

  lemma HasColon(s: string)
    ensures FindFirst(s, ":").Some? <==> ':' in s
  {
    if ':' in s {
      var i :| 0 <= i < |s| && s[i] == ':';
      assert OccursAt(s, ":", i);
    }
    var r := FindFirst(s, ":");
    if r.Some? {
      OccursHead(s, ":", r.value);
    }
  }

  /** Part i is an entry for the key. */
  predicate EntryFor(part: string, key: string) {
    Strip(part) != "" && KeyValue(Strip(part)).Ok? && KeyValue(Strip(part)).value.0 == key
  }

  /** A key stands for its last entry. */
  lemma {:induction false} LastEntryWins(parts: seq<string>, key: string) returns (i: nat)
    requires Fill(parts).Ok?
    ensures key !in Fill(parts).value ==> forall j :: 0 <= j < |parts| ==> !EntryFor(parts[j], key)
    ensures key in Fill(parts).value ==>
              && i < |parts| && EntryFor(parts[i], key)
              && Fill(parts).value[key] == KeyValue(Strip(parts[i])).value.1
              && forall j :: i < j < |parts| ==> !EntryFor(parts[j], key)
  {
    hide Strip, KeyValue;
    i := 0;
    if parts != [] {
      var n := |parts| - 1;
      i := LastEntryWins(parts[..n], key);
      assert forall j :: 0 <= j < n ==> parts[j] == parts[..n][j];
      if EntryFor(parts[n], key) {
        i := n;
      }
    }
  }

  /** A field is the value of its key, empty if it has none; the mark says that there is an empty hardware revision. */
  lemma FieldsAreEntries(s: string)
    requires ParseSpec(s).Ok?
    ensures var data, d := Fill(Split(Search(s).value, ';')).value, ParseSpec(s).value;
            && d.hwRev == (if "HW_REV" in data then data["HW_REV"] else "")
            && d.vendor == (if "VENDOR" in data then data["VENDOR"] else "")
            && d.bootRev == (if "BOOTR" in data then data["BOOTR"] else "")
            && d.swRev == (if "SW_REV" in data then data["SW_REV"] else "")
            && d.model == (if "MODEL" in data then data["MODEL"] else "")
            && (d.isEmpty <==> "HW_REV" in data && d.hwRev == "")
  {
    hide Search, Fill;
  }

  // ---------------------------------------------------------------- what a parsed field can be

  /** No `>>` in the text. */
  ghost predicate NoArrow(s: string) { forall i :: !OccursAt(s, ">>", i) }

  /** A field value the printer and the parser agree on. */
  ghost predicate Clean(f: string) { Trimmed(f, IsSpace) && ';' !in f && '\n' !in f && NoArrow(f) }

  ghost predicate CleanFields(d: Descriptor) {
    Clean(d.hwRev) && Clean(d.vendor) && Clean(d.bootRev) && Clean(d.swRev) && Clean(d.model)
  }

  lemma ArrowChars(s: string, i: int)
    ensures OccursAt(s, ">>", i) <==> 0 <= i && i + 2 <= |s| && s[i] == '>' && s[i + 1] == '>'
  {
    if 0 <= i && i + 2 <= |s| {
      assert s[i..i + 2] == [s[i], s[i + 1]];
    }
  }

  lemma NoArrowSlice(s: string, low: nat, high: nat)
    requires low <= high <= |s| && NoArrow(s)
    ensures NoArrow(s[low..high])
  {
    forall i ensures !OccursAt(s[low..high], ">>", i) {
      ArrowChars(s[low..high], i);
      ArrowChars(s, low + i);
      assert !OccursAt(s, ">>", low + i);
    }
  }

  lemma ArrowCloses(s: string)
    ensures |s| >= 2 && s[0] == '>' && s[1] == '>' ==> ClosesHere(s)
  {}

  /** What the lazy group catches stays on its line and holds no `>>`. */
  lemma {:induction false} LazyShape(s: string)
    requires Lazy(s).Some?
    ensures var c := Lazy(s).value;
            c <= s && '\n' !in c && NoArrow(c)
  {
    if !ClosesHere(s) {
      var rest := Lazy(s[1..]).value;
      LazyShape(s[1..]);
      var c := [s[0]] + rest;
      forall i ensures !OccursAt(c, ">>", i) {
        ArrowChars(c, i);
        ArrowChars(rest, i - 1);
        assert !OccursAt(rest, ">>", i - 1);
        ArrowCloses(s);
        assert c <= s;
      }
    }
  }

  lemma {:induction false} SearchShape(s: string)
    requires Search(s).Some?
    ensures '\n' !in Search(s).value && NoArrow(Search(s).value)
  {
    if "<<" <= s && Lazy(StripLeft(s[2..], IsSpace)).Some? {
      LazyShape(StripLeft(s[2..], IsSpace));
    } else {
      SearchShape(s[1..]);
    }
  }

  /** A part the splits leave: on one line, without `>>` and without the separator. */
  ghost predicate Plain(s: string) { ';' !in s && '\n' !in s && NoArrow(s) }

  lemma PlainSlice(s: string, low: nat, high: nat)
    requires low <= high <= |s| && Plain(s)
    ensures Plain(s[low..high])
  {
    NoArrowSlice(s, low, high);
  }

  lemma PlainStrip(s: string)
    requires Plain(s)
    ensures Plain(Strip(s)) && Clean(Strip(s))
  {
    var l := StripLeft(s, IsSpace);
    StripLeftShape(s, IsSpace);
    StripRightShape(l, IsSpace);
    assert l == s[|s| - |l|..|s|];
    PlainSlice(s, |s| - |l|, |s|);
    assert Strip(s) == l[0..|Strip(s)|];
    PlainSlice(l, 0, |Strip(s)|);
    StripShape(s, IsSpace);
  }

  lemma TailNoArrow(s: string)
    requires s != "" && NoArrow(s)
    ensures NoArrow(s[1..])
  {
    assert s[1..] == s[1..|s|];
    NoArrowSlice(s, 1, |s|);
  }

  lemma {:induction false} SplitPlain(s: string)
    requires '\n' !in s && NoArrow(s)
    ensures forall i :: 0 <= i < |Split(s, ';')| ==> Plain(Split(s, ';')[i])
    ensures Split(s, ';')[0] <= s
  {
    var parts := Split(s, ';');
    if s == "" {
      assert parts == [""];
    } else {
      TailNoArrow(s);
      SplitPlain(s[1..]);
      var rest := Split(s[1..], ';');
      if s[0] == ';' {
        assert Plain("");
        assert forall i :: 0 < i < |parts| ==> parts[i] == rest[i - 1];
      } else {
        var first := [s[0]] + rest[0];
        assert first == s[0..|first|];
        NoArrowSlice(s, 0, |first|);
        assert forall i :: 0 < i < |parts| ==> parts[i] == rest[i];
      }
    }
  }

  lemma {:induction false} FillClean(parts: seq<string>)
    requires forall i :: 0 <= i < |parts| ==> Plain(parts[i])
    requires Fill(parts).Ok?
    ensures forall k :: k in Fill(parts).value ==> Clean(Fill(parts).value[k])
  {
    hide Plain, Clean, Strip;
    if parts != [] {
      FillClean(parts[..|parts| - 1]);
      var last := Strip(parts[|parts| - 1]);
      PlainStrip(parts[|parts| - 1]);
      if last != "" {
        var k := FindFirst(last, ":").value;
        PlainSlice(last, k + 1, |last|);
        assert last[k + 1..|last|] == last[k + 1..];
        PlainStrip(last[k + 1..]);
      }
    }
  }

  /** Whatever the text, the fields of a parsed descriptor are clean. */
  lemma ParsedFieldsAreClean(s: string)
    requires ParseSpec(s).Ok?
    ensures CleanFields(ParseSpec(s).value)
  {
    hide Clean, Search, Fill;
    var content := Search(s).value;
    SearchShape(s);
    SplitPlain(content);
    FillClean(Split(content, ';'));
    EmptyIsClean();
  }

  lemma EmptyIsClean()
    ensures Clean("")
  {}

  // ---------------------------------------------------------------- the pattern on a printed text

  /** Skipping all white space after `<<` loses no match: what matches earlier matches after it. */
  lemma {:induction false} GreedySkipSuffices(s: string)
    requires Lazy(s).Some?
    ensures Lazy(StripLeft(s, IsSpace)).Some?
  {
    if s != "" && IsSpace(s[0]) {
      if ClosesHere(s) {
        assert ClosesHere(s[1..]);
      }
      GreedySkipSuffices(s[1..]);
    }
  }

  lemma {:induction false} StripRightFront(s: string, drop: char -> bool)
    requires s != ""
    ensures var rest := StripRight(s[1..], drop);
            StripRight(s, drop) == if rest == "" && drop(s[0]) then "" else [s[0]] + rest
  {
    var n := |s| - 1;
    if n > 0 && drop(s[n]) {
      assert s[..n][1..] == s[1..][..n - 1];
      StripRightFront(s[..n], drop);
    } else if n > 0 {
      assert s == [s[0]] + s[1..];
    }
  }

  lemma {:induction false} ClosesWhenBlank(b: string, post: string)
    requires NoArrow(b)
    ensures ClosesHere(b + " >>" + post) <==> StripRight(b, IsSpace) == ""
  {
    var s := b + " >>" + post;
    if b == "" {
      assert s[1..] == ">>" + post;
    } else {
      StripRightFront(b, IsSpace);
      assert s[1..] == b[1..] + " >>" + post;
      if IsSpace(b[0]) {
        TailNoArrow(b);
        ClosesWhenBlank(b[1..], post);
      } else {
        ArrowChars(b, 0);
        assert s[1] == if |b| == 1 then ' ' else b[1];
      }
    }
  }

  /** On a one-line text without `>>`, the lazy group stops only at the closing arrow. */
  lemma {:induction false} LazyTakesAll(b: string, post: string)
    requires NoArrow(b) && '\n' !in b
    ensures Lazy(b + " >>" + post) == Some(StripRight(b, IsSpace))
  {
    ClosesWhenBlank(b, post);
    if StripRight(b, IsSpace) != "" {
      StripRightFront(b, IsSpace);
      assert (b + " >>" + post)[1..] == b[1..] + " >>" + post;
      TailNoArrow(b);
      LazyTakesAll(b[1..], post);
    }
  }

  lemma NoArrowAround(a: string, b: string)
    requires NoArrow(a) && NoArrow(b)
    ensures NoArrow(a + ";" + b)
  {
    var s := a + ";" + b;
    forall i ensures !OccursAt(s, ">>", i) {
      ArrowChars(s, i);
      ArrowChars(a, i);
      ArrowChars(b, i - |a| - 1);
      assert !OccursAt(a, ">>", i) && !OccursAt(b, ">>", i - |a| - 1);
    }
  }

  lemma {:induction false} JoinOneLine(parts: seq<string>)
    requires |parts| >= 1
    requires forall i :: 0 <= i < |parts| ==> Plain(parts[i])
    ensures NoArrow(Join(parts, ';')) && '\n' !in Join(parts, ';')
  {
    if |parts| > 1 {
      JoinOneLine(parts[1..]);
      NoArrowAround(parts[0], Join(parts[1..], ';'));
    }
  }

  lemma PartIsPlain(pad: string, key: string, f: string)
    requires Clean(f) && Plain(pad) && Plain(key) && '>' !in pad && '>' !in key
    ensures Plain(Part(pad, key, f))
  {
    var s := Part(pad, key, f);
    var n := |pad| + |key| + 2;
    assert s[n..] == f;
    assert forall j :: 0 <= j < n ==> s[j] != '>' && s[j] != ';' && s[j] != '\n';
    forall i ensures !OccursAt(s, ">>", i) {
      ArrowChars(s, i);
      ArrowChars(f, i - n);
      assert !OccursAt(f, ">>", i - n);
    }
  }

  // ---------------------------------------------------------------- parsing a printed descriptor

  /** A part without the white space around it. */
  function Entry(key: string, f: string): string { if f == "" then key + ":" else key + ": " + f }

  lemma PartStrips(pad: string, key: string, f: string)
    requires pad == "" || pad == " "
    requires key != "" && Trimmed(key, IsSpace) && Trimmed(f, IsSpace)
    ensures Strip(Part(pad, key, f)) == Entry(key, f) && Strip(pad + key + ":") == Entry(key, "")
    ensures Entry(key, f) != ""
  {
    hide StripBy;
    var entry := Entry(key, f);
    assert entry[|entry| - 1] == if f == "" then ':' else f[|f| - 1];
    assert entry[0] == key[0];
    var trail := if f == "" then " " else "";
    assert Part(pad, key, f) == pad + entry + trail;
    StripPadded(pad, entry, trail, IsSpace);
    var bare := Entry(key, "");
    assert bare[|bare| - 1] == ':' && bare[0] == key[0];
    assert pad + key + ":" == pad + bare + "";
    StripPadded(pad, bare, "", IsSpace);
  }

  lemma EntryReads(key: string, f: string)
    requires key != "" && ':' !in key && Trimmed(key, IsSpace) && Trimmed(f, IsSpace)
    ensures KeyValue(Entry(key, f)) == Ok((key, f))
  {
    hide Strip, KeyValue;
    var rest := if f == "" then "" else " " + f;
    assert Entry(key, f) == key + ":" + rest;
    StripIdle(key);
    StripIdle(f);
    StripOneSpace(f);
    AroundColon(key, rest);
  }

  lemma AroundColon(key: string, rest: string)
    requires ':' !in key
    ensures KeyValue(key + ":" + rest) == Ok((Strip(key), Strip(rest)))
  {
    hide Strip, FindFirst;
    FirstColon(key, rest);
  }

  /** One printed field, with or without the trailing space of an empty value. */
  lemma ReadPart(pad: string, key: string, f: string, part: string)
    requires pad == "" || pad == " "
    requires key != "" && ':' !in key && Trimmed(key, IsSpace) && Trimmed(f, IsSpace)
    requires part == Part(pad, key, f) || (f == "" && part == pad + key + ":")
    ensures Strip(part) != "" && KeyValue(Strip(part)) == Ok((key, f))
  {
    hide Strip, KeyValue;
    PartStrips(pad, key, f);
    EntryReads(key, f);
  }

  /** The parts as the parser meets them: an empty model has lost its trailing space. */
  function PartsRead(d: Descriptor): seq<string> {
    Parts(d)[4 := if d.model == "" then " MODEL:" else Part(" ", "MODEL", d.model)]
  }

  lemma FillStep(parts: seq<string>, part: string, data: map<string, string>, key: string, f: string)
    requires Fill(parts) == Ok(data)
    requires Strip(part) != "" && KeyValue(Strip(part)) == Ok((key, f))
    ensures Fill(parts + [part]) == Ok(data[key := f])
  {
    hide KeyValue, Strip;
    assert (parts + [part])[..|parts|] == parts;
  }

  lemma ReadParts(d: Descriptor)
    requires CleanFields(d)
    ensures Fill(PartsRead(d)) == Ok(map["HW_REV" := d.hwRev, "VENDOR" := d.vendor, "BOOTR" := d.bootRev,
                                         "SW_REV" := d.swRev, "MODEL" := d.model])
  {
    hide Fill, KeyValue, Strip, Part;
    var parts := PartsRead(d);
    var none: map<string, string> := map[];
    FillNothing();
    ReadPart("", "HW_REV", d.hwRev, parts[0]);
    FillStep([], parts[0], none, "HW_REV", d.hwRev);
    ReadPart(" ", "VENDOR", d.vendor, parts[1]);
    FillStep([] + [parts[0]], parts[1], none["HW_REV" := d.hwRev], "VENDOR", d.vendor);
    ReadPart(" ", "BOOTR", d.bootRev, parts[2]);
    var two := none["HW_REV" := d.hwRev]["VENDOR" := d.vendor];
    FillStep([] + [parts[0]] + [parts[1]], parts[2], two, "BOOTR", d.bootRev);
    ReadPart(" ", "SW_REV", d.swRev, parts[3]);
    var three := two["BOOTR" := d.bootRev];
    FillStep([] + [parts[0]] + [parts[1]] + [parts[2]], parts[3], three, "SW_REV", d.swRev);
    assert " MODEL:" == " " + "MODEL" + ":";
    ReadPart(" ", "MODEL", d.model, parts[4]);
    var four := three["SW_REV" := d.swRev];
    FillStep([] + [parts[0]] + [parts[1]] + [parts[2]] + [parts[3]], parts[4], four, "MODEL", d.model);
    assert parts == [] + [parts[0]] + [parts[1]] + [parts[2]] + [parts[3]] + [parts[4]];
  }

  lemma FillNothing()
    ensures Fill([]) == Ok(map[])
  {}

  lemma PartsArePlain(d: Descriptor)
    requires CleanFields(d)
    ensures forall i :: 0 <= i < 5 ==> Plain(Parts(d)[i]) && Plain(PartsRead(d)[i])
  {
    hide Clean, Plain, Part;
    LiteralsPlain();
    PartIsPlain("", "HW_REV", d.hwRev);
    PartIsPlain(" ", "VENDOR", d.vendor);
    PartIsPlain(" ", "BOOTR", d.bootRev);
    PartIsPlain(" ", "SW_REV", d.swRev);
    PartIsPlain(" ", "MODEL", d.model);
  }

  lemma LiteralsPlain()
    ensures Plain("") && Plain(" ") && Plain("HW_REV") && Plain("VENDOR") && Plain("BOOTR") && Plain("SW_REV")
              && Plain("MODEL")
    ensures Plain(" MODEL:")
  {
    hide Plain;
    PlainWord("");
    PlainWord(" ");
    PlainWord("HW_REV");
    PlainWord("VENDOR");
    PlainWord("BOOTR");
    PlainWord("SW_REV");
    PlainWord("MODEL");
    PlainWord(" MODEL:");
  }

  lemma PlainWord(s: string)
    requires forall i :: 0 <= i < |s| ==> s[i] == ' ' || s[i] == '_' || 'A' <= s[i] <= 'Z' || s[i] == ':'
    ensures Plain(s)
  {
    forall i ensures !OccursAt(s, ">>", i) {
      ArrowChars(s, i);
    }
  }

  /** The printed body without its last space is what the parser splits. */
  lemma BodyRead(d: Descriptor)
    requires CleanFields(d)
    ensures StripRight(Join(Parts(d), ';'), IsSpace) == Join(PartsRead(d), ';')
    ensures Join(Parts(d), ';') != "" && Join(Parts(d), ';')[0] == 'H'
  {
    var front := Parts(d)[..4];
    assert Parts(d) == front + [Part(" ", "MODEL", d.model)];
    assert PartsRead(d) == front + [PartsRead(d)[4]];
    JoinAppend(front, [Part(" ", "MODEL", d.model)], ';');
    JoinAppend(front, [PartsRead(d)[4]], ';');
    var body, core := Join(Parts(d), ';'), Join(PartsRead(d), ';');
    if d.model == "" {
      assert body == core + " ";
      assert core[|core| - 1] == ':';
      StripRightPad(core, " ", IsSpace);
    } else {
      assert body[|body| - 1] == d.model[|d.model| - 1];
    }
    assert body[0] == Parts(d)[0][0];
  }

  /** The pattern finds the printed body, and nothing less, after any text that opens no arrow and before any other. */
  lemma {:induction false} SearchPrinted(pre: string, body: string, post: string)
    requires NoArrow(body) && '\n' !in body && body != "" && !IsSpace(body[0])
    requires !Contains(pre, "<<") && (pre != "" ==> pre[|pre| - 1] != '<')
    ensures Search(pre + "<< " + body + " >>" + post) == Some(StripRight(body, IsSpace))
  {
    var s := pre + "<< " + body + " >>" + post;
    if pre == "" {
      assert s[2..] == " " + (body + " >>" + post);
      StripLeftPad(" ", body + " >>" + post, IsSpace);
      assert StripLeft(body + " >>" + post, IsSpace) == body + " >>" + post;
      LazyTakesAll(body, post);
      assert s[..2] == "<<";
    } else {
      assert s[1..] == pre[1..] + "<< " + body + " >>" + post;
      OpensLater(pre);
      assert s[0] == pre[0] && |pre| >= 2 ==> s[1] == pre[1];
      assert s[..2] != "<<" by {
        assert s[..2][0] == pre[0];
        assert s[..2][1] == if |pre| == 1 then '<' else pre[1];
      }
      SearchPrinted(pre[1..], body, post);
    }
  }

  lemma OpensLater(pre: string)
    requires pre != ""
    ensures Contains(pre[1..], "<<") ==> Contains(pre, "<<")
    ensures |pre| >= 2 && pre[0] == '<' && pre[1] == '<' ==> Contains(pre, "<<")
  {
    assert |pre| >= 2 && pre[0] == '<' && pre[1] == '<' ==> OccursAt(pre, "<<", 0);
    var r := FindFirst(pre[1..], "<<");
    if r.Some? {
      assert pre[r.value + 1..r.value + 3] == pre[1..][r.value..r.value + 2];
      assert OccursAt(pre, "<<", r.value + 1);
    }
  }

  /**
  Parsing undoes printing on clean fields, wherever the printed text stands after a text that opens no arrow; the
  emptiness mark is recomputed from the first field.
  */
  lemma ParseFindsStr(d: Descriptor, pre: string, post: string)
    requires CleanFields(d) && !Contains(pre, "<<") && (pre != "" ==> pre[|pre| - 1] != '<')
    ensures ParseSpec(pre + Str(d) + post) == Ok(d.(isEmpty := d.hwRev == ""))
  {
    hide Search, Fill, Plain, Join, Split, StripRight, PartsRead, Parts, Contains;
    PartsArePlain(d);
    PartCounts(d);
    JoinOneLine(Parts(d));
    BodyRead(d);
    SearchPrinted(pre, Join(Parts(d), ';'), post);
    assert pre + Str(d) + post == pre + "<< " + Join(Parts(d), ';') + " >>" + post;
    NoSemicolons(d);
    SplitJoin(PartsRead(d), ';');
    ReadParts(d);
  }

  /** Without anything around. */
  lemma ParseUndoesStr(d: Descriptor)
    requires CleanFields(d)
    ensures ParseSpec(Str(d)) == Ok(d.(isEmpty := d.hwRev == ""))
  {
    hide ParseSpec, CleanFields, Str;
    ParseFindsStr(d, "", "");
    assert "" + Str(d) + "" == Str(d);
  }

  /** The printed form. */
  lemma StrIs(d: Descriptor)
    ensures Str(d) == "<< HW_REV: " + d.hwRev + "; VENDOR: " + d.vendor + "; BOOTR: " + d.bootRev
                      + "; SW_REV: " + d.swRev + "; MODEL: " + d.model + " >>"
  {
    hide Join, Part;
    JoinFive(Part("", "HW_REV", d.hwRev), Part(" ", "VENDOR", d.vendor), Part(" ", "BOOTR", d.bootRev),
      Part(" ", "SW_REV", d.swRev), Part(" ", "MODEL", d.model));
    Regroup("<< ", Part("", "HW_REV", d.hwRev), ";" + Part(" ", "VENDOR", d.vendor),
      ";" + Part(" ", "BOOTR", d.bootRev), ";" + Part(" ", "SW_REV", d.swRev), ";" + Part(" ", "MODEL", d.model));
    PartText("<< ", "", "HW_REV", "<< HW_REV: ", d.hwRev);
    PartText(";", " ", "VENDOR", "; VENDOR: ", d.vendor);
    PartText(";", " ", "BOOTR", "; BOOTR: ", d.bootRev);
    PartText(";", " ", "SW_REV", "; SW_REV: ", d.swRev);
    PartText(";", " ", "MODEL", "; MODEL: ", d.model);
    Regroup("<< HW_REV: " + d.hwRev, "; VENDOR: " + d.vendor, "; BOOTR: " + d.bootRev, "; SW_REV: " + d.swRev,
      "; MODEL: " + d.model, " >>");
    Ungroup("<< HW_REV: " + d.hwRev, "; VENDOR: ", d.vendor, "; BOOTR: ", d.bootRev, "; SW_REV: ", d.swRev,
      "; MODEL: ", d.model);
  }

  lemma PartText(lead: string, pad: string, key: string, text: string, f: string)
    requires lead + pad + key + ": " == text
    ensures lead + Part(pad, key, f) == text + f
  {}

  lemma Regroup(x: string, a: string, b: string, c: string, d: string, e: string)
    ensures x + (a + b + c + d + e) == x + a + b + c + d + e
  {}

  lemma Ungroup(x: string, a: string, b: string, c: string, d: string, e: string, f: string, g: string, h: string)
    ensures x + (a + b) + (c + d) + (e + f) + (g + h) == x + a + b + c + d + e + f + g + h
  {}

  lemma JoinFive(a: string, b: string, c: string, d: string, e: string)
    ensures Join([a, b, c, d, e], ';') == a + (";" + b) + (";" + c) + (";" + d) + (";" + e)
  {
    assert Join([d, e], ';') == d + ";" + e by {
      assert [d, e][1..] == [e];
    }
    assert Join([c, d, e], ';') == c + ";" + Join([d, e], ';') by {
      assert [c, d, e][1..] == [d, e];
    }
    assert Join([b, c, d, e], ';') == b + ";" + Join([c, d, e], ';') by {
      assert [b, c, d, e][1..] == [c, d, e];
    }
    assert Join([a, b, c, d, e], ';') == a + ";" + Join([b, c, d, e], ';') by {
      assert [a, b, c, d, e][1..] == [b, c, d, e];
    }
  }

  lemma PartCounts(d: Descriptor)
    ensures |Parts(d)| == 5 && |PartsRead(d)| == 5
  {}

  lemma NoSemicolons(d: Descriptor)
    requires forall i :: 0 <= i < 5 ==> Plain(PartsRead(d)[i])
    ensures forall i :: 0 <= i < 5 ==> ';' !in PartsRead(d)[i]
  {}

  /** The round trip, exactly: it returns the descriptor iff its fields are clean and its mark is right. */
  lemma RoundTripIff(d: Descriptor)
    ensures ParseSpec(Str(d)) == Ok(d) <==> CleanFields(d) && d.isEmpty == (d.hwRev == "")
  {
    hide ParseSpec, CleanFields, Str;
    if ParseSpec(Str(d)) == Ok(d) {
      ParsedFieldsAreClean(Str(d));
    }
    if CleanFields(d) {
      ParseUndoesStr(d);
    }
  }

  /** The five fields alone come back iff they are clean. */
  lemma FieldsReturnIff(d: Descriptor)
    ensures CleanFields(d) <==> exists e :: ParseSpec(Str(d)) == Ok(d.(isEmpty := e))
  {
    hide ParseSpec, Str, Clean;
    if CleanFields(d) {
      ParseUndoesStr(d);
    }
    if e :| ParseSpec(Str(d)) == Ok(d.(isEmpty := e)) {
      ParsedFieldsAreClean(Str(d));
    }
  }

  /** Printing what was parsed, from any text, is a normal form: parsing it again gives the same fields. */
  lemma ReparseKeepsFields(s: string)
    requires ParseSpec(s).Ok?
    ensures var d := ParseSpec(s).value;
            ParseSpec(Str(d)) == Ok(d.(isEmpty := d.hwRev == ""))
  {
    hide ParseSpec, Str;
    ParsedFieldsAreClean(s);
    ParseUndoesStr(ParseSpec(s).value);
  }
}
