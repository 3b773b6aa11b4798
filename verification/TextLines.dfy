/** Splitting text at a character and joining it again. A text is a sequence of UTF-16 code units,
    as JavaScript's `length`, `slice` and `split` see it. */
module TextLines {
  type Text = seq<char>

  /** `' '.repeat(n)`. */
  function Blanks(n: nat): Text {
    seq(n, i => ' ')
  }

  /** `text.split(c)`: never empty. */
  function Split(text: Text, c: char): (parts: seq<Text>)
    ensures parts != []
  {
    if text == [] then [[]]
    else
      var rest := Split(text[1..], c);
      if text[0] == c then [[]] + rest else [[text[0]] + rest[0]] + rest[1..]
  }

  /** `parts.join(c)`. */
  function Join(parts: seq<Text>, c: char): Text {
    if parts == [] then [] else if |parts| == 1 then parts[0] else parts[0] + [c] + Join(parts[1..], c)
  }

  /** The parts of a split do not contain the character, and together they are the text. */
  lemma {:induction false} SplitParts(text: Text, c: char)
    ensures forall i | 0 <= i < |Split(text, c)| :: c !in Split(text, c)[i]
    ensures Join(Split(text, c), c) == text
  {
    if text != [] {
      SplitParts(text[1..], c);
      var rest := Split(text[1..], c);
      var parts := Split(text, c);
      if text[0] == c {
        assert parts[1..] == rest;
        assert Join(parts, c) == [] + [c] + Join(rest, c);
      } else {
        assert c !in [text[0]] + rest[0];
        assert forall i | 1 <= i < |parts| :: parts[i] == rest[i];
        if |rest| > 1 {
          assert parts[1..] == rest[1..];
          assert Join(parts, c) == [text[0]] + (rest[0] + [c] + Join(rest[1..], c));
        }
      }
      assert text == [text[0]] + text[1..];
    }
  }

  /** Splitting invents no character. */
  lemma {:induction false} SplitFrom(text: Text, c: char, x: char)
    requires x !in text
    ensures forall i | 0 <= i < |Split(text, c)| :: x !in Split(text, c)[i]
  {
    if text != [] {
      assert text == [text[0]] + text[1..];
      SplitFrom(text[1..], c, x);
      var rest, parts := Split(text[1..], c), Split(text, c);
      if text[0] == c {
        assert forall i | 1 <= i < |parts| :: parts[i] == rest[i - 1];
      } else {
        assert x !in [text[0]] + rest[0];
        assert forall i | 1 <= i < |parts| :: parts[i] == rest[i];
      }
    }
  }

  lemma {:induction false} SplitFirst(part: Text, tail: Text, c: char)
    requires c !in part
    ensures Split(part + [c] + tail, c) == [part] + Split(tail, c)
  {
    if part == [] {
      assert ([] + [c] + tail)[1..] == tail;
    } else {
      SplitFirst(part[1..], tail, c);
      assert (part + [c] + tail)[1..] == part[1..] + [c] + tail;
      assert [part[0]] + part[1..] == part;
    }
  }

  lemma {:induction false} SplitWhole(part: Text, c: char)
    requires c !in part
    ensures Split(part, c) == [part]
  {
    if part != [] {
      SplitWhole(part[1..], c);
      assert [part[0]] + part[1..] == part;
    }
  }

  /** Joining and splitting is the identity on parts that do not contain the character. */
  lemma {:induction false} SplitJoin(parts: seq<Text>, c: char)
    requires parts != [] && forall i | 0 <= i < |parts| :: c !in parts[i]
    ensures Split(Join(parts, c), c) == parts
  {
    if |parts| == 1 {
      SplitWhole(parts[0], c);
    } else {
      SplitJoin(parts[1..], c);
      SplitFirst(parts[0], Join(parts[1..], c), c);
    }
  }

  lemma {:induction false} JoinSnoc(parts: seq<Text>, part: Text, c: char)
    requires parts != []
    ensures Join(parts + [part], c) == Join(parts, c) + [c] + part
  {
    if |parts| == 1 {
      assert (parts + [part])[1..] == [part];
      assert Join([part], c) == part;
    } else {
      JoinSnoc(parts[1..], part, c);
      assert (parts + [part])[1..] == parts[1..] + [part];
      assert parts[0] + [c] + (Join(parts[1..], c) + [c] + part) == (parts[0] + [c] + Join(parts[1..], c)) + [c] + part;
    }
  }

  function SplitAll(texts: seq<Text>, c: char): seq<Text> {
    if texts == [] then [] else Split(texts[0], c) + SplitAll(texts[1..], c)
  }

  lemma GlueParts(x: char, c: char, r: seq<Text>, s: seq<Text>)
    requires r != []
    ensures [[]] + (r + s) == ([[]] + r) + s
    ensures [[x] + (r + s)[0]] + (r + s)[1..] == ([[x] + r[0]] + r[1..]) + s
  {
    assert (r + s)[1..] == r[1..] + s;
  }

  lemma {:induction false} SplitAround(a: Text, b: Text, c: char)
    ensures Split(a + [c] + b, c) == Split(a, c) + Split(b, c)
  {
    if a == [] {
      assert ([] + [c] + b)[1..] == b;
    } else {
      var whole := a + [c] + b;
      assert whole[1..] == a[1..] + [c] + b && whole[0] == a[0];
      SplitAround(a[1..], b, c);
      GlueParts(a[0], c, Split(a[1..], c), Split(b, c));
    }
  }

  /** Splitting joined texts splits each of them. */
  lemma {:induction false} SplitJoined(texts: seq<Text>, c: char)
    requires texts != []
    ensures Split(Join(texts, c), c) == SplitAll(texts, c)
  {
    if |texts| == 1 {
      assert SplitAll(texts[1..], c) == [];
    } else {
      SplitJoined(texts[1..], c);
      SplitAround(texts[0], Join(texts[1..], c), c);
    }
  }
}
