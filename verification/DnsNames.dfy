/** The string functions behind the DNS planner, on ASCII text, and when the text of a record key is as good as
    the key itself. */
module DnsNames {
  import opened PriorityQueue
  import opened DnsPlan

  predicate IsSpace(c: char) {
    c == ' ' || '\t' <= c <= '\r'
  }

  function TrimStart(s: string): string {
    if s != "" && IsSpace(s[0]) then TrimStart(s[1..]) else s
  }

  function TrimEnd(s: string): string {
    if s != "" && IsSpace(s[|s| - 1]) then TrimEnd(s[..|s| - 1]) else s
  }

  function Trim(s: string): string {
    TrimEnd(TrimStart(s))
  }

  function LowerChar(c: char): char {
    if 'A' <= c <= 'Z' then (c as int + 32) as char else c
  }

  function Lower(s: string): (r: string)
    ensures |r| == |s|
    ensures forall i :: 0 <= i < |s| ==> r[i] == LowerChar(s[i])
  {
    seq(|s|, i requires 0 <= i < |s| => LowerChar(s[i]))
  }

  /** `absolute`: trimmed, in lower case, without one trailing dot. */
  function Absolute(name: string): string {
    var lower := Lower(Trim(name));
    if lower != "" && lower[|lower| - 1] == '.' then lower[..|lower| - 1] else lower
  }

  /** The form that the type asks of names: lower case, no space around it, no trailing dot. */
  predicate InAbsoluteForm(name: string) {
    && (forall i :: 0 <= i < |name| ==> !('A' <= name[i] <= 'Z'))
    && (name != "" ==> !IsSpace(name[0]) && !IsSpace(name[|name| - 1]) && name[|name| - 1] != '.')
  }

  /** Exactly the names in absolute form are left alone, so a name may be normalized any number of times once it is. */
  lemma AbsoluteKeepsIff(name: string)
    ensures Absolute(name) == name <==> InAbsoluteForm(name)
  {
    TrimShorter(name);
    if InAbsoluteForm(name) {
      assert Trim(name) == name;
      assert Lower(name) == name;
    }
    if Absolute(name) == name {
      assert Trim(name) == name && Lower(name) == name;
      if name != "" { TrimmedEnds(name); }
    }
  }

  lemma {:induction false} TrimStartShorter(s: string)
    ensures |TrimStart(s)| <= |s| && (|TrimStart(s)| == |s| ==> TrimStart(s) == s)
    ensures TrimStart(s) != "" ==> !IsSpace(TrimStart(s)[0])
  {
    if s != "" && IsSpace(s[0]) { TrimStartShorter(s[1..]); }
  }

  lemma {:induction false} TrimEndShorter(s: string)
    ensures TrimEnd(s) <= s
    ensures TrimEnd(s) != "" ==> !IsSpace(TrimEnd(s)[|TrimEnd(s)| - 1])
  {
    if s != "" && IsSpace(s[|s| - 1]) { TrimEndShorter(s[..|s| - 1]); }
  }

  lemma TrimShorter(s: string)
    ensures |Trim(s)| <= |s| && (|Trim(s)| == |s| ==> Trim(s) == s)
  {
    TrimStartShorter(s);
    TrimEndShorter(TrimStart(s));
  }

  lemma TrimmedEnds(s: string)
    requires Trim(s) == s && s != ""
    ensures !IsSpace(s[0]) && !IsSpace(s[|s| - 1])
  {
    TrimStartShorter(s);
    TrimEndShorter(TrimStart(s));
  }

  const TXT_KINDS := ["v=spf1", "v=dmarc1", "v=dkim1", "v=stsv1", "v=tlsrptv1", "v=uaac1"]

  function FirstKind(kinds: seq<string>, value: string): Option<string> {
    if kinds == [] then None else if kinds[0] <= value then Some(kinds[0]) else FirstKind(kinds[1..], value)
  }

  /** `txtKind`: the policy a TXT record states, by the start of its text. */
  function TxtKind(value: string): Option<string> {
    FirstKind(TXT_KINDS, Lower(Trim(value)))
  }

  lemma {:induction false} FirstKindIff(kinds: seq<string>, value: string, kind: string)
    requires forall i, j :: 0 <= i < |kinds| && 0 <= j < |kinds| && kinds[i] <= kinds[j] ==> i == j
    ensures FirstKind(kinds, value) == Some(kind) <==> kind in kinds && kind <= value
  {
    if kinds != [] {
      FirstKindIff(kinds[1..], value, kind);
      assert forall k :: k in kinds <==> k == kinds[0] || k in kinds[1..];
      if kinds[0] <= value && kind in kinds[1..] && kind <= value {
        var j :| 1 <= j < |kinds| && kinds[j] == kind;
        PrefixesNest(kinds[0], kind, value);
      }
    }
  }

  lemma PrefixesNest(a: string, b: string, c: string)
    requires a <= c && b <= c
    ensures a <= b || b <= a
  {
  }

  lemma KindsApart(i: nat, j: nat)
    requires i < |TXT_KINDS| && j < |TXT_KINDS| && TXT_KINDS[i] <= TXT_KINDS[j]
    ensures i == j
  {
    assert TXT_KINDS[i][2] == TXT_KINDS[j][2] && TXT_KINDS[i][3] == TXT_KINDS[j][3] && TXT_KINDS[i][4] == TXT_KINDS[j][4];
  }

  /** A record has a kind exactly when its text starts with it; the order of the list does not matter, because no kind
      is the start of another. */
  lemma TxtKindIff(value: string, kind: string)
    ensures TxtKind(value) == Some(kind) <==> kind in TXT_KINDS && kind <= Lower(Trim(value))
  {
    forall i, j | 0 <= i < |TXT_KINDS| && 0 <= j < |TXT_KINDS| && TXT_KINDS[i] <= TXT_KINDS[j]
      ensures i == j
    {
      KindsApart(i, j);
    }
    FirstKindIff(TXT_KINDS, Lower(Trim(value)), kind);
  }

  // The text of a record key.

  function KindText(kind: RecordType): (text: string)
    ensures '|' !in text
  {
    match kind
    case MX => "MX"
    case TXT => "TXT"
    case CNAME => "CNAME"
    case SRV => "SRV"
  }

  /** `recordKey`: type, name and value with a bar between them. */
  function KeyText(key: RecordKey): string {
    KindText(key.kind) + "|" + key.name + "|" + key.value
  }

  lemma FirstBar(a: string, b: string, s: string, t: string)
    requires a + "|" + s == b + "|" + t && '|' !in a && '|' !in b
    ensures a == b && s == t
  {
    var text := a + "|" + s;
    assert text[|a|] == '|' && (b + "|" + t)[|b|] == '|';
    assert forall i :: 0 <= i < |a| ==> text[i] == a[i];
    assert forall i :: 0 <= i < |b| ==> text[i] == b[i];
    assert a == text[..|a|] && b == (b + "|" + t)[..|b|];
    assert s == text[|a| + 1..] && t == (b + "|" + t)[|b| + 1..];
  }

  /** Among names without a bar the text decides the key, so a ledger of texts is a ledger of keys. */
  lemma KeyTextFaithful(a: RecordKey, b: RecordKey)
    requires '|' !in a.name && '|' !in b.name
    ensures KeyText(a) == KeyText(b) <==> a == b
  {
    if KeyText(a) == KeyText(b) {
      assert KeyText(a) == KindText(a.kind) + "|" + (a.name + "|" + a.value);
      assert KeyText(b) == KindText(b.kind) + "|" + (b.name + "|" + b.value);
      FirstBar(KindText(a.kind), KindText(b.kind), a.name + "|" + a.value, b.name + "|" + b.value);
      FirstBar(a.name, b.name, a.value, b.value);
    }
  }

  /** `b`'s name is the start of `a`'s, and the part in between has moved to its value. */
  ghost predicate Shifted(a: RecordKey, b: RecordKey) {
    a.kind == b.kind && exists x: string :: a.name == b.name + "|" + x && b.value == x + "|" + a.value
  }

  /** The two sides of a bar, of which the first one is shorter. */
  lemma ShiftedBar(n: string, v: string, m: string, u: string) returns (x: string)
    requires n + "|" + v == m + "|" + u && |m| < |n|
    ensures n == m + "|" + x && u == x + "|" + v
  {
    var text := n + "|" + v;
    assert text == m + "|" + u;
    x := n[|m| + 1..];
    assert forall i :: 0 <= i < |n| ==> text[i] == n[i];
    assert text[|m|] == '|' && n[|m|] == '|';
    assert n[..|m|] == text[..|m|] == m;
    assert n == n[..|m|] + [n[|m|]] + n[|m| + 1..];
    assert u == text[|m| + 1..] == x + "|" + v;
  }

  lemma SameLengthBar(n: string, v: string, m: string, u: string)
    requires n + "|" + v == m + "|" + u && |m| == |n|
    ensures n == m && v == u
  {
    var text := n + "|" + v;
    assert n == text[..|n|] && m == (m + "|" + u)[..|n|];
    assert v == text[|n| + 1..] && u == (m + "|" + u)[|n| + 1..];
  }

  lemma ShiftedTexts(a: RecordKey, b: RecordKey)
    requires Shifted(a, b)
    ensures KeyText(a) == KeyText(b) && a != b
  {
    var x: string :| a.name == b.name + "|" + x && b.value == x + "|" + a.value;
    assert a.name + "|" + a.value == b.name + "|" + b.value;
    assert KeyText(a) == KindText(a.kind) + "|" + (a.name + "|" + a.value);
    assert KeyText(b) == KindText(b.kind) + "|" + (b.name + "|" + b.value);
  }

  /** Exactly when two different keys have the same text: the records are of one type, and a part that ends in a bar has
      moved from the name of one to the value of the other. */
  lemma CollidesIff(a: RecordKey, b: RecordKey)
    ensures KeyText(a) == KeyText(b) && a != b <==> Shifted(a, b) || Shifted(b, a)
  {
    if KeyText(a) == KeyText(b) {
      assert KeyText(a) == KindText(a.kind) + "|" + (a.name + "|" + a.value);
      assert KeyText(b) == KindText(b.kind) + "|" + (b.name + "|" + b.value);
      FirstBar(KindText(a.kind), KindText(b.kind), a.name + "|" + a.value, b.name + "|" + b.value);
      if |b.name| < |a.name| {
        var x := ShiftedBar(a.name, a.value, b.name, b.value);
      } else if |a.name| < |b.name| {
        var x := ShiftedBar(b.name, b.value, a.name, a.value);
      } else {
        SameLengthBar(a.name, a.value, b.name, b.value);
      }
    }
    if Shifted(a, b) { ShiftedTexts(a, b); }
    if Shifted(b, a) { ShiftedTexts(b, a); }
  }

  lemma SplitAtBar(s: string) returns (i: nat)
    requires '|' in s
    ensures i < |s| && s == s[..i] + "|" + s[i + 1..]
  {
    i :| 0 <= i < |s| && s[i] == '|';
    assert s == s[..i] + [s[i]] + s[i + 1..];
  }

  /** A key shares its text with no other one if and only if neither its name nor its value has a bar. */
  lemma KeyTextUniqueIff(a: RecordKey)
    ensures (forall b :: KeyText(b) == KeyText(a) ==> b == a) <==> '|' !in a.name && '|' !in a.value
  {
    if '|' in a.name {
      var i := SplitAtBar(a.name);
      var b := RecordKey(a.kind, a.name[..i], a.name[i + 1..] + "|" + a.value);
      assert Shifted(a, b);
      ShiftedTexts(a, b);
    } else if '|' in a.value {
      var i := SplitAtBar(a.value);
      var b := RecordKey(a.kind, a.name + "|" + a.value[..i], a.value[i + 1..]);
      assert Shifted(b, a);
      ShiftedTexts(b, a);
    } else {
      forall b | KeyText(b) == KeyText(a)
        ensures b == a
      {
        CollidesIff(a, b);
      }
    }
  }

  /** With a bar in a name two different records share a key. */
  lemma KeyTextAmbiguous()
    ensures KeyText(RecordKey(TXT, "a|b", "c")) == KeyText(RecordKey(TXT, "a", "b|c"))
  {
    assert "TXT" + "|" + "a|b" + "|" + "c" == "TXT" + "|" + "a" + "|" + "b|c";
  }
}
