/** The default sort order of strings, by code units, and the proof that what threading asks of the platform's
    string functions can be met. */
module Collation {
  import opened Orders
  import opened ThreadingMetadata

  /** The order behind `sort()` without a comparator. */
  function CodeUnitOrder(a: string, b: string): int {
    if a == b then 0
    else if a == "" then -1
    else if b == "" then 1
    else if a[0] != b[0] then a[0] as int - b[0] as int
    else CodeUnitOrder(a[1..], b[1..])
  }

  lemma {:induction false} CodeUnitsFlip(a: string, b: string)
    ensures CodeUnitOrder(a, b) <= 0 <==> CodeUnitOrder(b, a) >= 0
    ensures CodeUnitOrder(a, b) == 0 ==> a == b
  {
    if a != b && a != "" && b != "" && a[0] == b[0] {
      CodeUnitsFlip(a[1..], b[1..]);
      assert a == [a[0]] + a[1..] && b == [b[0]] + b[1..];
    }
  }

  lemma {:induction false} CodeUnitsChain(a: string, b: string, c: string)
    requires CodeUnitOrder(a, b) <= 0 && CodeUnitOrder(b, c) <= 0
    ensures CodeUnitOrder(a, c) <= 0
  {
    if a != b && b != c && a != "" && b != "" && c != "" && a[0] == b[0] == c[0] {
      CodeUnitsChain(a[1..], b[1..], c[1..]);
    }
  }

  /** The default sort order is a total order on strings. */
  lemma CodeUnitOrderIsTotal()
    ensures TotalOrder(CodeUnitOrder)
  {
    forall a, b
      ensures CodeUnitOrder(a, b) <= 0 <==> CodeUnitOrder(b, a) >= 0
      ensures CodeUnitOrder(a, b) == 0 ==> a == b
    {
      CodeUnitsFlip(a, b);
    }
    forall a, b, c | CodeUnitOrder(a, b) <= 0 && CodeUnitOrder(b, c) <= 0
      ensures CodeUnitOrder(a, c) <= 0
    {
      CodeUnitsChain(a, b, c);
    }
  }

  // A simple id list: words between single spaces.

  function Words(text: string, word: string): seq<string> {
    if text == "" then (if word == "" then [] else [word])
    else if text[0] == ' ' then (if word == "" then [] else [word]) + Words(text[1..], "")
    else Words(text[1..], word + [text[0]])
  }

  predicate IsWord(word: string) {
    word != "" && ' ' !in word
  }

  function JoinWords(ids: seq<string>): string {
    if ids == [] then "" else ids[0] + " " + JoinWords(ids[1..])
  }

  lemma {:induction false} WordsAreWords(text: string, word: string)
    requires ' ' !in word
    ensures forall w :: w in Words(text, word) ==> IsWord(w)
  {
    if text != "" {
      WordsAreWords(text[1..], if text[0] == ' ' then "" else word + [text[0]]);
    }
  }

  lemma {:induction false} ReadWord(rest: string, word: string, text: string)
    requires ' ' !in rest && word + rest != ""
    ensures Words(rest + " " + text, word) == [word + rest] + Words(text, "")
  {
    if rest == "" {
      assert rest + " " + text == " " + text && word + rest == word;
    } else {
      assert (rest + " " + text)[1..] == rest[1..] + " " + text;
      assert word + [rest[0]] + rest[1..] == word + rest;
      ReadWord(rest[1..], word + [rest[0]], text);
    }
  }

  lemma {:induction false} WordsOfJoin(ids: seq<string>)
    requires forall id :: id in ids ==> IsWord(id)
    ensures Words(JoinWords(ids), "") == ids
  {
    if ids != [] {
      WordsOfJoin(ids[1..]);
      assert IsWord(ids[0]) && "" + ids[0] == ids[0];
      ReadWord(ids[0], "", JoinWords(ids[1..]));
    }
  }

  // A simple faithful encoding: a mark before every character and another one behind every string.

  function Marked(s: string): string {
    if s == "" then "," else "'" + [s[0]] + Marked(s[1..])
  }

  function Encoded(list: seq<string>): string {
    if list == [] then "" else Marked(list[0]) + Encoded(list[1..])
  }

  lemma {:induction false} MarkedFaithful(s: string, t: string, a: string, b: string)
    requires Marked(s) + a == Marked(t) + b
    ensures s == t && a == b
  {
    assert (Marked(s) + a)[0] == (Marked(t) + b)[0];
    if s == "" {
      assert a == (Marked(s) + a)[1..] && b == (Marked(t) + b)[1..];
    } else {
      assert (Marked(s) + a)[1] == s[0] && (Marked(t) + b)[1] == t[0];
      assert (Marked(s) + a)[2..] == Marked(s[1..]) + a && (Marked(t) + b)[2..] == Marked(t[1..]) + b;
      MarkedFaithful(s[1..], t[1..], a, b);
      assert s == [s[0]] + s[1..] && t == [t[0]] + t[1..];
    }
  }

  lemma {:induction false} EncodedFaithful(s: seq<string>, t: seq<string>)
    requires Encoded(s) == Encoded(t)
    ensures s == t
  {
    if s != [] && t != [] {
      MarkedFaithful(s[0], t[0], Encoded(s[1..]), Encoded(t[1..]));
      EncodedFaithful(s[1..], t[1..]);
      assert s == [s[0]] + s[1..] && t == [t[0]] + t[1..];
    }
  }

  function PlainText(): Text {
    Text(field => Words(field, ""), JoinWords, CodeUnitOrder, CodeUnitOrder, Encoded)
  }

  /** There are string functions with all the properties that the threading laws ask for. */
  lemma SoundTextExists()
    ensures SoundText(PlainText())
  {
    CodeUnitOrderIsTotal();
    var text := PlainText();
    forall s, t
      ensures text.json(s) == text.json(t) ==> s == t
    {
      if Encoded(s) == Encoded(t) { EncodedFaithful(s, t); }
    }
    forall ids | Distinct(ids) && (forall id :: id in ids ==> Normal(text, id))
      ensures text.normalize(text.join(ids)) == ids
    {
      forall id | id in ids
        ensures IsWord(id)
      {
        var field :| id in text.normalize(field);
        WordsAreWords(field, "");
      }
      WordsOfJoin(ids);
    }
  }
}
