/**
Object identifiers as component sequences and as dotted text, their lexicographic order
(section 4.2.2 of RFC 3416), and the subtree test that the client runs on the text.
*/
module Oids {
  import opened PyText

  type Oid = seq<nat>

  function Components(o: Oid): (parts: seq<string>)
    ensures |parts| == |o|
  {
    seq(|o|, i requires 0 <= i < |o| => Decimal(o[i]))
  }

  /** `str(oid)`: the components in decimal, joined by dots. */
  function OidText(o: Oid): string
    requires o != []
  {
    Join(Components(o), '.')
  }

  /** `s.strip('.').split('.')` */
  function DottedParts(s: string): seq<string> { Split(StripBy(s, IsDot), '.') }

  /** `parts[:n]` for any non-negative n. */
  function Take<T>(parts: seq<T>, n: nat): seq<T> { if |parts| <= n then parts else parts[..n] }

  /** `Snmp_v2c._is_oid_in_subtree` */
  predicate InSubtree(oidStr: string, objStr: string) {
    var objParts := DottedParts(objStr);
    Take(DottedParts(oidStr), |objParts|) == objParts
  }

  lemma TakeIsPrefix<T>(parts: seq<T>, r: seq<T>)
    ensures Take(parts, |r|) == r <==> r <= parts
  {}

  /** On text: the test holds of equal strings and of extensions by a dot and more, once outer dots are gone. */
  lemma InSubtreeText(oidStr: string, objStr: string)
    ensures var o, r := StripBy(oidStr, IsDot), StripBy(objStr, IsDot);
            InSubtree(oidStr, objStr) <==> (o == r || r + "." <= o)
  {
    TakeIsPrefix(DottedParts(oidStr), DottedParts(objStr));
    var o, r := StripBy(oidStr, IsDot), StripBy(objStr, IsDot);
    if InSubtree(oidStr, objStr) {
      SplitPrefixOf(o, r, '.');
    }
    if o == r || r + "." <= o {
      PrefixSplits(o, r, '.');
    }
  }

  /** Everything is in its own subtree, and a subtree of a subtree is inside the whole. */
  lemma InSubtreePreorder(a: string, b: string, c: string)
    ensures InSubtree(a, a)
    ensures InSubtree(a, b) && InSubtree(b, c) ==> InSubtree(a, c)
  {
    var x, y, z := DottedParts(a), DottedParts(b), DottedParts(c);
    TakeIsPrefix(x, y);
    TakeIsPrefix(y, z);
    TakeIsPrefix(x, z);
  }

  /** More characters in the last component never lead into the subtree: 1.3.6.10 is not under 1.3.6.1. */
  lemma LongerComponentIsOutside(root: string, more: string)
    requires more != "" && '.' !in more
    requires Trimmed(root, IsDot)
    ensures !InSubtree(root + more, root)
  {
    LongerIsTrimmed(root, more);
    StripTrimmed(root, IsDot);
    StripTrimmed(root + more, IsDot);
    NotDotExtension(root, more);
    if InSubtree(root + more, root) {
      InSubtreeText(root + more, root);
    }
  }

  lemma LongerIsTrimmed(root: string, more: string)
    requires more != "" && '.' !in more
    requires Trimmed(root, IsDot)
    ensures Trimmed(root + more, IsDot)
  {
    var o := root + more;
    assert o[|o| - 1] == more[|more| - 1];
    assert o[0] == if root == "" then more[0] else root[0];
  }

  lemma NotDotExtension(root: string, more: string)
    requires more != "" && more[0] != '.'
    ensures root + more != root && !(root + "." <= root + more)
  {
    assert |root + more| > |root|;
    assert (root + more)[|root|] == more[0];
    assert (root + ".")[|root|] == '.';
  }

  lemma ComponentsSplit(o: Oid)
    requires o != []
    ensures StripBy(OidText(o), IsDot) == OidText(o)
    ensures Split(OidText(o), '.') == Components(o)
  {
    forall i | 0 <= i < |o| ensures '.' !in Components(o)[i] {
      DecimalDigits(o[i]);
    }
    SplitJoin(Components(o), '.');
    forall i | 0 <= i < |o| ensures Components(o)[i] != "" {
      DecimalDigits(o[i]);
    }
    JoinEnds(Components(o));
    StripTrimmed(OidText(o), IsDot);
  }

  lemma {:induction false} JoinEnds(parts: seq<string>)
    requires |parts| >= 1
    requires forall i :: 0 <= i < |parts| ==> parts[i] != "" && '.' !in parts[i]
    ensures var s := Join(parts, '.');
            s != "" && s[0] == parts[0][0] && s[|s| - 1] == parts[|parts| - 1][|parts[|parts| - 1]| - 1]
  {
    if |parts| > 1 {
      JoinEnds(parts[1..]);
    }
  }

  /** On identifiers: the text test is "the root is a prefix of the components". */
  lemma InSubtreeOid(o: Oid, root: Oid)
    requires o != [] && root != []
    ensures InSubtree(OidText(o), OidText(root)) <==> root <= o
  {
    ComponentsSplit(o);
    ComponentsSplit(root);
    var cs, rs := Components(o), Components(root);
    if root <= o {
      assert cs[..|rs|] == rs;
    } else if |root| <= |o| {
      var i :| 0 <= i < |root| && root[i] != o[i];
      DecimalInjective(root[i], o[i]);
      assert cs[..|rs|][i] != rs[i];
    }
  }

  // ---------------------------------------------------------------- order

  /** Lexicographic order; a proper prefix comes first. */
  predicate Lt(a: Oid, b: Oid) {
    b != [] && (a == [] || a[0] < b[0] || (a[0] == b[0] && Lt(a[1..], b[1..])))
  }

  lemma {:induction false} LtTransitive(a: Oid, b: Oid, c: Oid)
    requires Lt(a, b) && Lt(b, c)
    ensures Lt(a, c)
  {
    if a != [] && a[0] == b[0] && b[0] == c[0] {
      LtTransitive(a[1..], b[1..], c[1..]);
    }
  }

  lemma {:induction false} LtIrreflexive(a: Oid)
    ensures !Lt(a, a)
  {
    if a != [] {
      LtIrreflexive(a[1..]);
    }
  }

  lemma {:induction false} PrefixLt(root: Oid, o: Oid)
    requires root < o
    ensures Lt(root, o)
  {
    if root != [] {
      assert root[1..] < o[1..];
      PrefixLt(root[1..], o[1..]);
    }
  }

  /** A subtree is an interval: whatever lies above the root and below a member is a member. */
  lemma {:induction false} SubtreeInterval(root: Oid, a: Oid, b: Oid)
    requires Lt(root, a) && Lt(a, b) && root <= b
    ensures root <= a
  {
    if root != [] {
      SubtreeInterval(root[1..], a[1..], b[1..]);
      assert root == [root[0]] + root[1..];
      assert a == [a[0]] + a[1..];
    }
  }
}
