/** The pane's word wrap. */
module WrapText {
  import opened TextLines

  // The wrapping and padding of claude-plugin/hooks/register.tsx.

  const SPACE: char := ' '
  const NEWLINE: char := '\n'

  // --- the transform ------------------------------------------------------------------------------------

  /** A word cut at every `w` columns; an empty word has no pieces. */
  function Pieces(word: Text, w: nat): seq<Text>
    requires w >= 1
    decreases |word|
  {
    if |word| <= w then (if word == [] then [] else [word]) else [word[..w]] + Pieces(word[w..], w)
  }

  function AllPieces(words: seq<Text>, w: nat): seq<Text>
    requires w >= 1
  {
    if words == [] then [] else Pieces(words[0], w) + AllPieces(words[1..], w)
  }

  /** The lines finished so far, and the line being filled. */
  datatype Fill = Fill(done: seq<Text>, line: Text)

  function Put(f: Fill, piece: Text, w: nat): Fill {
    if f.line == [] then Fill(f.done, piece)
    else if |f.line| + 1 + |piece| <= w then Fill(f.done, f.line + [SPACE] + piece)
    else Fill(f.done + [f.line], piece)
  }

  function PutAll(f: Fill, pieces: seq<Text>, w: nat): Fill
    decreases |pieces|
  {
    if pieces == [] then f else PutAll(Put(f, pieces[0], w), pieces[1..], w)
  }

  function Lines(f: Fill): seq<Text> {
    f.done + [f.line]
  }

  function WrapParagraph(para: Text, w: nat): seq<Text>
    requires w >= 1
  {
    Lines(PutAll(Fill([], []), AllPieces(Split(para, SPACE), w), w))
  }

  function WrapParagraphs(paras: seq<Text>, w: nat): seq<Text>
    requires w >= 1
  {
    if paras == [] then [] else WrapParagraph(paras[0], w) + WrapParagraphs(paras[1..], w)
  }

  function Budget(width: int): nat {
    if width < 2 then 2 else width
  }

  function Wrap(text: Text, width: int): Text {
    Join(WrapParagraphs(Split(text, NEWLINE), Budget(width)), NEWLINE)
  }

  /** The innermost loop of `wrapText`: one word, hard-broken at the column. */
  method PlaceWord(out: seq<Text>, line: Text, word: Text, w: nat) returns (f: Fill)
    requires w >= 1
    ensures f == PutAll(Fill(out, line), Pieces(word, w), w)
  {
    f := Fill(out, line);
    var k := 0;
    assert word[0..] == word;
    while k < |word|
      invariant 0 <= k
      invariant PutAll(f, if k < |word| then Pieces(word[k..], w) else [], w)
                == PutAll(Fill(out, line), Pieces(word, w), w)
      decreases |word| - k
    {
      var piece := if k + w <= |word| then word[k..k + w] else word[k..];
      PlaceNext(f, word, k, w);
      if f.line == [] {
        f := Fill(f.done, piece);
      } else if |f.line| + 1 + |piece| <= w {
        f := Fill(f.done, f.line + [SPACE] + piece);
      } else {
        f := Fill(f.done + [f.line], piece);
      }
      k := k + w;
    }
  }

  /** The loop over the words of a paragraph. */
  method PlaceWords(out: seq<Text>, words: seq<Text>, w: nat) returns (f: Fill)
    requires w >= 1
    ensures f == PutAll(Fill(out, []), AllPieces(words, w), w)
  {
    f := Fill(out, []);
    for i := 0 to |words|
      invariant PutAll(f, AllPieces(words[i..], w), w) == PutAll(Fill(out, []), AllPieces(words, w), w)
    {
      assert words[i..][1..] == words[i + 1..];
      PutAllSplit(f, Pieces(words[i], w), AllPieces(words[i + 1..], w), w);
      f := PlaceWord(f.done, f.line, words[i], w);
    }
  }

  lemma ParagraphAppended(out: seq<Text>, para: Text, w: nat)
    requires w >= 1
    ensures Lines(PutAll(Fill(out, []), AllPieces(Split(para, SPACE), w), w)) == out + WrapParagraph(para, w)
  {
    PutAllAppends(out, [], [], AllPieces(Split(para, SPACE), w), w);
    assert out + [] == out;
  }

  lemma AppendAssoc(a: seq<Text>, b: seq<Text>, c: seq<Text>)
    ensures (a + b) + c == a + (b + c)
  {
  }

  /** `wrapText`. */
  method WrapLoop(text: Text, width: int) returns (wrapped: Text)
    ensures wrapped == Wrap(text, width)
  {
    var w: nat := if width < 2 then 2 else width;
    var out: seq<Text> := [];
    var paras := Split(text, NEWLINE);
    for p := 0 to |paras|
      invariant out + WrapParagraphs(paras[p..], w) == WrapParagraphs(paras, w)
    {
      assert paras[p..][1..] == paras[p + 1..];
      var words := Split(paras[p], SPACE);
      var f := PlaceWords(out, words, w);
      ParagraphAppended(out, paras[p], w);
      AppendAssoc(out, WrapParagraph(paras[p], w), WrapParagraphs(paras[p + 1..], w));
      out := f.done + [f.line];
    }
    assert out + [] == out;
    return Join(out, NEWLINE);
  }

  lemma {:induction false} PutAllSplit(f: Fill, a: seq<Text>, b: seq<Text>, w: nat)
    ensures PutAll(f, a + b, w) == PutAll(PutAll(f, a, w), b, w)
    decreases |a|
  {
    if a == [] {
      assert a + b == b;
    } else {
      assert (a + b)[1..] == a[1..] + b;
      PutAllSplit(Put(f, a[0], w), a[1..], b, w);
    }
  }

  lemma PlaceNext(f: Fill, word: Text, k: nat, w: nat)
    requires k < |word| && w >= 1
    ensures var piece := if k + w <= |word| then word[k..k + w] else word[k..];
            var rest := if k + w < |word| then Pieces(word[k + w..], w) else [];
            PutAll(f, Pieces(word[k..], w), w) == PutAll(Put(f, piece, w), rest, w)
  {
    NextPiece(word, k, w);
    var piece := if k + w <= |word| then word[k..k + w] else word[k..];
    var rest := if k + w < |word| then Pieces(word[k + w..], w) else [];
    assert ([piece] + rest)[1..] == rest;
  }

  lemma NextPiece(word: Text, k: nat, w: nat)
    requires k < |word| && w >= 1
    ensures var piece := if k + w <= |word| then word[k..k + w] else word[k..];
            var rest := if k + w < |word| then Pieces(word[k + w..], w) else [];
            Pieces(word[k..], w) == [piece] + rest
  {
    var tail := word[k..];
    if |tail| > w {
      assert tail[..w] == word[k..k + w] && tail[w..] == word[k + w..];
    } else if k + w == |word| {
      assert tail == word[k..k + w];
    }
  }

  /** Lines already finished do not matter for the rest. */
  lemma {:induction false} PutAllAppends(before: seq<Text>, done: seq<Text>, line: Text, pieces: seq<Text>, w: nat)
    ensures var f := PutAll(Fill(done, line), pieces, w);
            PutAll(Fill(before + done, line), pieces, w) == Fill(before + f.done, f.line)
    decreases |pieces|
  {
    if pieces != [] {
      var f := Put(Fill(done, line), pieces[0], w);
      assert (before + done) + [line] == before + (done + [line]);
      PutAllAppends(before, f.done, f.line, pieces[1..], w);
    }
  }

  // --- what the pieces are -------------------------------------------------------------------------------

  /** Non-empty, no wider than a line, and free of separators. */
  ghost predicate PiecesOk(pieces: seq<Text>, w: nat) {
    forall i | 0 <= i < |pieces| :: 1 <= |pieces[i]| <= w && SPACE !in pieces[i] && NEWLINE !in pieces[i]
  }

  function Concat(parts: seq<Text>): Text {
    if parts == [] then [] else parts[0] + Concat(parts[1..])
  }

  lemma {:induction false} ConcatAppend(a: seq<Text>, b: seq<Text>)
    ensures Concat(a + b) == Concat(a) + Concat(b)
  {
    if a == [] {
      assert a + b == b;
    } else {
      assert (a + b)[1..] == a[1..] + b;
      ConcatAppend(a[1..], b);
    }
  }

  /** The pieces of a word put together are the word, and every piece but the last is exactly one
      line wide. */
  lemma {:induction false} PiecesOfWord(word: Text, w: nat)
    requires w >= 1 && SPACE !in word && NEWLINE !in word
    ensures PiecesOk(Pieces(word, w), w) && Concat(Pieces(word, w)) == word
    ensures forall i | 0 <= i < |Pieces(word, w)| - 1 :: |Pieces(word, w)[i]| == w
    decreases |word|
  {
    if |word| > w {
      var rest := word[w..];
      assert SPACE !in word[..w] && SPACE !in rest && NEWLINE !in word[..w] && NEWLINE !in rest;
      PiecesOfWord(rest, w);
      assert Pieces(word, w)[1..] == Pieces(rest, w);
      assert word == word[..w] + rest;
    } else if word != [] {
      assert Pieces(word, w)[1..] == [];
    }
  }

  lemma {:induction false} AllPiecesOk(words: seq<Text>, w: nat)
    requires w >= 1 && forall i | 0 <= i < |words| :: SPACE !in words[i] && NEWLINE !in words[i]
    ensures PiecesOk(AllPieces(words, w), w) && Concat(AllPieces(words, w)) == Concat(words)
  {
    if words != [] {
      PiecesOfWord(words[0], w);
      AllPiecesOk(words[1..], w);
      ConcatAppend(Pieces(words[0], w), AllPieces(words[1..], w));
    }
  }

  // --- layouts ----------------------------------------------------------------------------------------------

  /** A layout of a list of pieces: consecutive groups, one a line. */
  function Flat(groups: seq<seq<Text>>): seq<Text> {
    if groups == [] then [] else groups[0] + Flat(groups[1..])
  }

  function Line(group: seq<Text>): Text {
    Join(group, SPACE)
  }

  ghost predicate Fits(group: seq<Text>, w: nat) {
    group != [] && |Line(group)| <= w
  }

  ghost predicate Layout(groups: seq<seq<Text>>, pieces: seq<Text>, w: nat) {
    && Flat(groups) == pieces
    && forall i | 0 <= i < |groups| :: Fits(groups[i], w)
  }

  /** What the fill loop does, as groups: with `open` the pieces of the line being filled. */
  function Greedy(open: seq<Text>, pieces: seq<Text>, w: nat): seq<seq<Text>>
    requires open != []
    decreases |pieces|
  {
    if pieces == [] then [open]
    else if |Line(open)| + 1 + |pieces[0]| <= w then Greedy(open + [pieces[0]], pieces[1..], w)
    else [open] + Greedy([pieces[0]], pieces[1..], w)
  }

  function LinesOf(groups: seq<seq<Text>>): seq<Text> {
    if groups == [] then [] else [Line(groups[0])] + LinesOf(groups[1..])
  }

  lemma LineSnoc(group: seq<Text>, piece: Text)
    requires group != []
    ensures Line(group + [piece]) == Line(group) + [SPACE] + piece
    ensures |Line(group + [piece])| == |Line(group)| + 1 + |piece|
  {
    JoinSnoc(group, piece, SPACE);
  }

  lemma {:induction false} PutAllIsGreedy(done: seq<Text>, open: seq<Text>, pieces: seq<Text>, w: nat)
    requires open != [] && Line(open) != [] && forall i | 0 <= i < |pieces| :: pieces[i] != []
    ensures Lines(PutAll(Fill(done, Line(open)), pieces, w)) == done + LinesOf(Greedy(open, pieces, w))
    decreases |pieces|
  {
    if pieces == [] {
      assert LinesOf([open]) == [Line(open)];
    } else {
      var p, rest := pieces[0], pieces[1..];
      if |Line(open)| + 1 + |p| <= w {
        LineSnoc(open, p);
        PutAllIsGreedy(done, open + [p], rest, w);
      } else {
        assert Line([p]) == p;
        PutAllIsGreedy(done + [Line(open)], [p], rest, w);
        var later := Greedy([p], rest, w);
        assert ([open] + later)[1..] == later;
        assert done + ([Line(open)] + LinesOf(later)) == (done + [Line(open)]) + LinesOf(later);
      }
    }
  }

  lemma {:induction false} GreedyIsLayout(open: seq<Text>, pieces: seq<Text>, w: nat)
    requires Fits(open, w) && forall i | 0 <= i < |pieces| :: |pieces[i]| <= w
    ensures Layout(Greedy(open, pieces, w), open + pieces, w)
    decreases |pieces|
  {
    if pieces == [] {
      assert open + [] == open;
    } else {
      var p, rest := pieces[0], pieces[1..];
      assert pieces == [p] + rest;
      if |Line(open)| + 1 + |p| <= w {
        LineSnoc(open, p);
        GreedyIsLayout(open + [p], rest, w);
        assert (open + [p]) + rest == open + pieces;
      } else {
        assert Line([p]) == p;
        GreedyIsLayout([p], rest, w);
        var later := Greedy([p], rest, w);
        assert ([open] + later)[1..] == later;
      }
    }
  }

  lemma {:induction false} LineLength(a: seq<Text>, b: seq<Text>)
    requires a != [] && b != []
    ensures |Line(a + b)| == |Line(a)| + 1 + |Line(b)|
  {
    assert (a + b)[1..] == a[1..] + b;
    if |a| == 1 {
      assert a[1..] + b == b;
    } else {
      LineLength(a[1..], b);
    }
  }

  /** A line is at least as long as any stretch of its pieces. */
  lemma LineCovers(a: seq<Text>, b: seq<Text>, c: seq<Text>)
    requires b != []
    ensures |Line(b)| <= |Line(a + b + c)|
  {
    assert a == [] ==> a + b == b;
    assert c == [] ==> a + b + c == a + b;
    if a != [] {
      LineLength(a, b);
    }
    if c != [] {
      LineLength(a + b, c);
    }
  }

  /** Greedy stays ahead: a layout that starts no later than greedy's open line needs at least as
      many lines. */
  lemma {:induction false} GreedyIsOptimal(front: seq<Text>, open: seq<Text>, pieces: seq<Text>, w: nat,
                                           groups: seq<seq<Text>>)
    requires open != [] && Layout(groups, front + open + pieces, w)
    ensures |Greedy(open, pieces, w)| <= |groups|
    decreases |pieces|
  {
    assert groups != [];
    if pieces != [] {
      var p, rest := pieces[0], pieces[1..];
      assert pieces == [p] + rest;
      if |Line(open)| + 1 + |p| <= w {
        assert front + (open + [p]) + rest == front + open + pieces;
        GreedyIsOptimal(front, open + [p], rest, w, groups);
      } else {
        var all := front + open + pieces;
        FirstGroupEnds(front, open, p, rest, w, groups);
        var n := |groups[0]|;
        var front' := (front + open)[n..];
        assert Flat(groups) == groups[0] + Flat(groups[1..]);
        assert Flat(groups[1..]) == all[n..];
        assert all[n..] == front' + [p] + rest;
        assert Layout(groups[1..], front' + [p] + rest, w) by {
          assert forall i | 0 <= i < |groups[1..]| :: groups[1..][i] == groups[i + 1];
        }
        GreedyIsOptimal(front', [p], rest, w, groups[1..]);
      }
    }
  }

  /** The first line of such a layout ends before the piece greedy could not fit. */
  lemma FirstGroupEnds(front: seq<Text>, open: seq<Text>, p: Text, rest: seq<Text>, w: nat, groups: seq<seq<Text>>)
    requires open != [] && groups != [] && Fits(groups[0], w)
    requires Flat(groups) == front + open + ([p] + rest)
    requires |Line(open)| + 1 + |p| > w
    ensures |groups[0]| <= |front| + |open|
  {
    var g, all := groups[0], front + open + ([p] + rest);
    assert g + Flat(groups[1..]) == all;
    assert g == all[..|g|];
    if |g| > |front| + |open| {
      var c := g[|front| + |open| + 1..];
      assert g == front + (open + [p]) + c;
      LineCovers(front, open + [p], c);
      LineSnoc(open, p);
      assert false;
    }
  }

  /** A piece as wide as the line stands alone on it. Every piece of a hard-broken word but its last
      is that wide, so no space ever lands inside the word. */
  lemma WidePieceStandsAlone(group: seq<Text>, w: nat, i: nat)
    requires Fits(group, w) && PiecesOk(group, w) && i < |group| && |group[i]| == w
    ensures group == [group[i]]
  {
    var a, b, c := group[..i], [group[i]], group[i + 1..];
    assert group == a + b + c;
    assert Line(b) == group[i];
    assert [] + (a + b) + c == group && a + (b + c) + [] == group;
    if a != [] {
      LineLength(a, b);
      LineCovers([], a + b, c);
    }
    if c != [] {
      LineLength(b, c);
      LineCovers(a, b + c, []);
    }
  }

  lemma LayoutTail(groups: seq<seq<Text>>, pieces: seq<Text>, w: nat)
    requires Layout(groups, pieces, w) && pieces != []
    ensures groups != [] && |groups[0]| <= |pieces| && groups[0] == pieces[..|groups[0]|]
    ensures Layout(groups[1..], pieces[|groups[0]|..], w)
  {
    assert Flat(groups) == groups[0] + Flat(groups[1..]);
    assert Flat(groups[1..]) == pieces[|groups[0]|..];
    forall i | 0 <= i < |groups[1..]|
      ensures Fits(groups[1..][i], w)
    {
      assert groups[1..][i] == groups[i + 1];
    }
  }

  /** From the first piece of a word on: every full piece has its own line, and the last piece begins the
      next one. */
  lemma {:induction false} LinesOfAWord(groups: seq<seq<Text>>, word: seq<Text>, after: seq<Text>, w: nat)
    requires Layout(groups, word + after, w) && PiecesOk(word + after, w) && word != []
    requires forall i | 0 <= i < |word| - 1 :: |word[i]| == w
    ensures |word| <= |groups| && forall i | 0 <= i < |word| - 1 :: groups[i] == [word[i]]
    ensures groups[|word| - 1] != [] && groups[|word| - 1][0] == word[|word| - 1]
    decreases |word|
  {
    var pieces := word + after;
    LayoutTail(groups, pieces, w);
    assert groups[0][0] == pieces[0] == word[0];
    if |word| > 1 {
      WidePieceStandsAlone(groups[0], w, 0);
      assert pieces[1..] == word[1..] + after;
      LinesOfAWord(groups[1..], word[1..], after, w);
      assert forall i | 1 <= i < |word| :: groups[i] == groups[1..][i - 1];
    }
  }

  /** A word longer than a line, anywhere in a layout: its pieces come on consecutive lines, all of them full
      and alone but the last, which begins its line. No space lands inside the word. */
  lemma {:induction false} LongWordStaysWhole(groups: seq<seq<Text>>, before: seq<Text>, word: seq<Text>,
                                              after: seq<Text>, w: nat) returns (j: nat)
    requires Layout(groups, before + word + after, w) && PiecesOk(before + word + after, w) && |word| > 1
    requires forall i | 0 <= i < |word| - 1 :: |word[i]| == w
    ensures j + |word| <= |groups| && forall i | 0 <= i < |word| - 1 :: groups[j + i] == [word[i]]
    ensures groups[j + |word| - 1] != [] && groups[j + |word| - 1][0] == word[|word| - 1]
    decreases |before|
  {
    var pieces := before + word + after;
    if before == [] {
      assert pieces == word + after;
      LinesOfAWord(groups, word, after, w);
      j := 0;
    } else {
      LayoutTail(groups, pieces, w);
      var n := |groups[0]|;
      if n > |before| {
        assert groups[0][|before|] == word[0];
        WidePieceStandsAlone(groups[0], w, |before|);
      }
      assert pieces[n..] == before[n..] + word + after;
      j := LongWordStaysWhole(groups[1..], before[n..], word, after, w);
      assert forall i | j <= i < j + |word| :: groups[1..][i] == groups[i + 1];
      j := j + 1;
    }
  }

  // --- the paragraph -------------------------------------------------------------------------------------------

  /** The pieces of one paragraph. */
  function ParagraphPieces(para: Text, w: nat): seq<Text>
    requires w >= 1
  {
    AllPieces(Split(para, SPACE), w)
  }

  lemma ParagraphPiecesOk(para: Text, w: nat)
    requires w >= 1 && NEWLINE !in para
    ensures PiecesOk(ParagraphPieces(para, w), w)
    ensures Concat(ParagraphPieces(para, w)) == Concat(Split(para, SPACE))
  {
    SplitParts(para, SPACE);
    SplitFrom(para, SPACE, NEWLINE);
    AllPiecesOk(Split(para, SPACE), w);
  }

  /** The groups behind the lines of a wrapped paragraph. */
  function GreedyGroups(pieces: seq<Text>, w: nat): seq<seq<Text>> {
    if pieces == [] then [] else Greedy([pieces[0]], pieces[1..], w)
  }

  lemma FillIsGreedy(pieces: seq<Text>, w: nat)
    requires PiecesOk(pieces, w)
    ensures Layout(GreedyGroups(pieces, w), pieces, w)
    ensures Lines(PutAll(Fill([], []), pieces, w)) == if pieces == [] then [[]] else LinesOf(GreedyGroups(pieces, w))
  {
    if pieces != [] {
      var open, rest := [pieces[0]], pieces[1..];
      assert pieces == open + rest;
      assert Line(open) == pieces[0];
      GreedyIsLayout(open, rest, w);
      PutAllIsGreedy([], open, rest, w);
      assert [] + LinesOf(Greedy(open, rest, w)) == LinesOf(Greedy(open, rest, w));
    }
  }

  lemma {:induction false} LinesOfGroups(groups: seq<seq<Text>>)
    ensures |LinesOf(groups)| == |groups|
    ensures forall i | 0 <= i < |groups| :: LinesOf(groups)[i] == Line(groups[i])
  {
    if groups != [] {
      LinesOfGroups(groups[1..]);
    }
  }

  lemma {:induction false} AllPiecesSplit(words: seq<Text>, k: nat, w: nat)
    requires w >= 1 && k < |words|
    ensures AllPieces(words, w) == AllPieces(words[..k], w) + Pieces(words[k], w) + AllPieces(words[k + 1..], w)
  {
    if k == 0 {
      var none: seq<Text> := [];
      assert words[..0] == none && none + Pieces(words[0], w) == Pieces(words[0], w);
    } else {
      AllPiecesSplit(words[1..], k - 1, w);
      assert words[1..][..k - 1] == words[..k][1..] && words[1..][k..] == words[k + 1..];
      var first, before := Pieces(words[0], w), AllPieces(words[..k][1..], w);
      assert AllPieces(words[..k], w) == first + before;
      Regroup(first, before, Pieces(words[k], w), AllPieces(words[k + 1..], w));
    }
  }

  lemma Regroup(a: seq<Text>, b: seq<Text>, c: seq<Text>, d: seq<Text>)
    ensures a + (b + c + d) == (a + b) + c + d
  {
  }

  /** In the wrapped paragraph, a word too long for a line stands on consecutive lines of its own, whole but
      for the line breaks: only what comes after it can follow on its last line. */
  lemma LongWordIsOnlyBrokenByLines(para: Text, w: nat, k: nat) returns (j: nat)
    requires w >= 1 && NEWLINE !in para && k < |Split(para, SPACE)| && |Split(para, SPACE)[k]| > w
    ensures var word, lines := Split(para, SPACE)[k], WrapParagraph(para, w);
            var parts := Pieces(word, w);
            && Concat(parts) == word && 1 < |parts| && j + |parts| <= |lines|
            && (forall i | 0 <= i < |parts| - 1 :: lines[j + i] == parts[i])
            && parts[|parts| - 1] <= lines[j + |parts| - 1]
  {
    var words, groups := Split(para, SPACE), GreedyGroups(ParagraphPieces(para, w), w);
    SplitParts(para, SPACE);
    SplitFrom(para, SPACE, NEWLINE);
    PiecesOfWord(words[k], w);
    ParagraphPiecesOk(para, w);
    FillIsGreedy(ParagraphPieces(para, w), w);
    j := LongWordInGroups(words, w, k, groups);
    GroupsToLines(groups, Pieces(words[k], w), j);
  }

  lemma LongWordInGroups(words: seq<Text>, w: nat, k: nat, groups: seq<seq<Text>>) returns (j: nat)
    requires w >= 1 && k < |words| && |words[k]| > w && SPACE !in words[k] && NEWLINE !in words[k]
    requires Layout(groups, AllPieces(words, w), w) && PiecesOk(AllPieces(words, w), w)
    ensures var parts := Pieces(words[k], w);
            && 1 < |parts| && j + |parts| <= |groups|
            && (forall i | 0 <= i < |parts| - 1 :: groups[j + i] == [parts[i]])
            && groups[j + |parts| - 1] != [] && groups[j + |parts| - 1][0] == parts[|parts| - 1]
  {
    var parts := Pieces(words[k], w);
    assert parts == [words[k][..w]] + Pieces(words[k][w..], w);
    PiecesOfWord(words[k], w);
    AllPiecesSplit(words, k, w);
    j := LongWordStaysWhole(groups, AllPieces(words[..k], w), parts, AllPieces(words[k + 1..], w), w);
  }

  lemma GroupsToLines(groups: seq<seq<Text>>, parts: seq<Text>, j: nat)
    requires parts != [] && j + |parts| <= |groups| && forall i | 0 <= i < |parts| - 1 :: groups[j + i] == [parts[i]]
    requires groups[j + |parts| - 1] != [] && groups[j + |parts| - 1][0] == parts[|parts| - 1]
    ensures |LinesOf(groups)| == |groups|
    ensures forall i | 0 <= i < |parts| - 1 :: LinesOf(groups)[j + i] == parts[i]
    ensures parts[|parts| - 1] <= LinesOf(groups)[j + |parts| - 1]
  {
    LinesOfGroups(groups);
    forall i | 0 <= i < |parts| - 1
      ensures LinesOf(groups)[j + i] == parts[i]
    {
      assert Line([parts[i]]) == parts[i];
    }
    FirstOnLine(groups[j + |parts| - 1]);
  }

  lemma FirstOnLine(group: seq<Text>)
    requires group != []
    ensures group[0] <= Line(group)
  {
  }

  /** A wrapped paragraph is a layout of its pieces, and no layout of them has fewer lines. A
      paragraph without a word is one empty line. */
  lemma ParagraphIsOptimal(para: Text, w: nat, groups: seq<seq<Text>>)
    requires w >= 1 && NEWLINE !in para && Layout(groups, ParagraphPieces(para, w), w)
    ensures var pieces := ParagraphPieces(para, w);
            && Layout(GreedyGroups(pieces, w), pieces, w)
            && WrapParagraph(para, w) == (if pieces == [] then [[]] else LinesOf(GreedyGroups(pieces, w)))
            && |WrapParagraph(para, w)| <= (if groups == [] then 1 else |groups|)
  {
    var pieces := ParagraphPieces(para, w);
    ParagraphPiecesOk(para, w);
    FillIsGreedy(pieces, w);
    LinesOfGroups(GreedyGroups(pieces, w));
    if pieces != [] {
      assert [] + [pieces[0]] + pieces[1..] == pieces;
      GreedyIsOptimal([], [pieces[0]], pieces[1..], w, groups);
      assert groups != [];
    }
  }

  lemma {:induction false} FlatContains(groups: seq<seq<Text>>, i: nat, j: nat)
    requires i < |groups| && j < |groups[i]|
    ensures groups[i][j] in Flat(groups)
  {
    if i > 0 {
      FlatContains(groups[1..], i - 1, j);
    }
  }

  lemma {:induction false} LineHasNo(group: seq<Text>, x: char)
    requires x != SPACE && forall i | 0 <= i < |group| :: x !in group[i]
    ensures x !in Line(group)
  {
    if |group| > 1 {
      LineHasNo(group[1..], x);
    }
  }

  /** One line, wrapped again, is that line. */
  lemma RewrapGroup(group: seq<Text>, w: nat)
    requires w >= 1 && Fits(group, w) && PiecesOk(group, w)
    ensures WrapParagraph(Line(group), w) == [Line(group)]
  {
    SplitJoin(group, SPACE);
    PiecesAreWhole(group, w);
    var open, rest := [group[0]], group[1..];
    assert group == open + rest;
    assert Line(open) == group[0];
    PutAllIsGreedy([], open, rest, w);
    GreedyOneLine(open, rest, w);
    assert LinesOf([group]) == [Line(group)];
  }

  lemma {:induction false} PiecesAreWhole(group: seq<Text>, w: nat)
    requires w >= 1 && PiecesOk(group, w)
    ensures AllPieces(group, w) == group
  {
    if group != [] {
      PiecesAreWhole(group[1..], w);
      assert group == [group[0]] + group[1..];
    }
  }

  lemma {:induction false} GreedyOneLine(open: seq<Text>, pieces: seq<Text>, w: nat)
    requires open != [] && |Line(open + pieces)| <= w
    ensures Greedy(open, pieces, w) == [open + pieces]
    decreases |pieces|
  {
    if pieces == [] {
      assert open + [] == open;
    } else {
      var p, rest := pieces[0], pieces[1..];
      assert (open + [p]) + rest == open + pieces;
      LineSnoc(open, p);
      LineCovers([], open + [p], rest);
      assert [] + (open + [p]) + rest == open + pieces;
      GreedyOneLine(open + [p], rest, w);
    }
  }

  ghost predicate Stable(lines: seq<Text>, w: nat)
    requires w >= 1
  {
    forall i | 0 <= i < |lines| :: |lines[i]| <= w && NEWLINE !in lines[i] && WrapParagraph(lines[i], w) == [lines[i]]
  }

  lemma EmptyLineRewraps(w: nat)
    requires w >= 1
    ensures WrapParagraph([], w) == [[]]
  {
    assert Split([], SPACE) == [[]];
    assert AllPieces([[]], w) == Pieces([], w) + AllPieces([], w) == [];
  }

  lemma GroupLineIsStable(group: seq<Text>, w: nat)
    requires w >= 1 && Fits(group, w) && PiecesOk(group, w)
    ensures NEWLINE !in Line(group) && WrapParagraph(Line(group), w) == [Line(group)]
  {
    LineHasNo(group, NEWLINE);
    RewrapGroup(group, w);
  }

  lemma ParagraphIsStable(para: Text, w: nat)
    requires w >= 1 && NEWLINE !in para
    ensures WrapParagraph(para, w) != [] && Stable(WrapParagraph(para, w), w)
  {
    var pieces := ParagraphPieces(para, w);
    ParagraphPiecesOk(para, w);
    FillIsGreedy(pieces, w);
    if pieces == [] {
      EmptyLineRewraps(w);
    } else {
      GroupsAreStable(GreedyGroups(pieces, w), pieces, w);
    }
  }

  lemma GroupsAreStable(groups: seq<seq<Text>>, pieces: seq<Text>, w: nat)
    requires w >= 1 && Layout(groups, pieces, w) && PiecesOk(pieces, w)
    ensures Stable(LinesOf(groups), w)
    ensures pieces != [] ==> LinesOf(groups) != []
  {
    LinesOfGroups(groups);
    forall i | 0 <= i < |groups|
      ensures NEWLINE !in Line(groups[i]) && WrapParagraph(Line(groups[i]), w) == [Line(groups[i])]
    {
      GroupPiecesOk(groups, pieces, w, i);
      GroupLineIsStable(groups[i], w);
    }
  }

  lemma GroupPiecesOk(groups: seq<seq<Text>>, pieces: seq<Text>, w: nat, i: nat)
    requires Layout(groups, pieces, w) && PiecesOk(pieces, w) && i < |groups|
    ensures PiecesOk(groups[i], w)
  {
    forall j | 0 <= j < |groups[i]|
      ensures groups[i][j] in pieces
    {
      FlatContains(groups, i, j);
    }
  }

  // --- the whole text --------------------------------------------------------------------------------------------

  lemma {:induction false} ParagraphsAreStable(paras: seq<Text>, w: nat)
    requires w >= 1 && forall i | 0 <= i < |paras| :: NEWLINE !in paras[i]
    ensures Stable(WrapParagraphs(paras, w), w)
    ensures paras != [] ==> WrapParagraphs(paras, w) != []
  {
    if paras != [] {
      ParagraphIsStable(paras[0], w);
      ParagraphsAreStable(paras[1..], w);
    }
  }

  lemma {:induction false} StableRewraps(lines: seq<Text>, w: nat)
    requires w >= 1 && Stable(lines, w)
    ensures WrapParagraphs(lines, w) == lines
  {
    if lines != [] {
      StableRewraps(lines[1..], w);
      assert lines == [lines[0]] + lines[1..];
    }
  }

  lemma LinesOfWrapped(text: Text, width: int)
    ensures Split(Wrap(text, width), NEWLINE) == WrapParagraphs(Split(text, NEWLINE), Budget(width))
    ensures Stable(Split(Wrap(text, width), NEWLINE), Budget(width))
  {
    var w := Budget(width);
    SplitParts(text, NEWLINE);
    ParagraphsAreStable(Split(text, NEWLINE), w);
    SplitJoin(WrapParagraphs(Split(text, NEWLINE), w), NEWLINE);
  }

  /** No line of a wrapped text is wider than the width asked for, or than 2 if that is less, and wrapping
      twice is wrapping once. */
  lemma WrapFitsAndIsIdempotent(text: Text, width: int)
    ensures forall i | 0 <= i < |Split(Wrap(text, width), NEWLINE)| ::
              |Split(Wrap(text, width), NEWLINE)[i]| <= if width < 2 then 2 else width
    ensures Wrap(Wrap(text, width), width) == Wrap(text, width)
  {
    LinesOfWrapped(text, width);
    StableRewraps(Split(Wrap(text, width), NEWLINE), Budget(width));
  }

  /** And it uses the width: a text without a line break gets no more lines than any layout of its words,
      cut at that width, has. */
  lemma WrapIsOptimal(text: Text, width: nat, groups: seq<seq<Text>>)
    requires width >= 2 && NEWLINE !in text && Layout(groups, ParagraphPieces(text, width), width)
    ensures |Split(Wrap(text, width), NEWLINE)| <= if groups == [] then 1 else |groups|
  {
    OneParagraph(text, width);
    ParagraphIsOptimal(text, width, groups);
  }

  /** Below 2 it wraps at 2. */
  lemma NarrowIsTwo(text: Text, width: int)
    requires width < 2
    ensures Wrap(text, width) == Wrap(text, 2)
  {
    assert Budget(width) == Budget(2);
  }

  lemma OneParagraph(text: Text, width: int)
    requires NEWLINE !in text
    ensures Split(Wrap(text, width), NEWLINE) == WrapParagraph(text, Budget(width))
  {
    LinesOfWrapped(text, width);
    SplitWhole(text, NEWLINE);
    var none: seq<Text> := [];
    assert [text][1..] == none && WrapParagraphs(none, Budget(width)) == none;
    assert WrapParagraph(text, Budget(width)) + none == WrapParagraph(text, Budget(width));
  }

  function LinesOfEach(paras: seq<Text>, width: int): seq<Text> {
    if paras == [] then [] else Split(Wrap(paras[0], width), NEWLINE) + LinesOfEach(paras[1..], width)
  }

  /** Paragraphs are wrapped one by one, in order. */
  lemma ParagraphByParagraph(text: Text, width: int)
    ensures Split(Wrap(text, width), NEWLINE) == LinesOfEach(Split(text, NEWLINE), width)
  {
    LinesOfWrapped(text, width);
    SplitParts(text, NEWLINE);
    EachParagraph(Split(text, NEWLINE), width);
  }

  lemma {:induction false} EachParagraph(paras: seq<Text>, width: int)
    requires forall i | 0 <= i < |paras| :: NEWLINE !in paras[i]
    ensures WrapParagraphs(paras, Budget(width)) == LinesOfEach(paras, width)
  {
    if paras != [] {
      OneParagraph(paras[0], width);
      EachParagraph(paras[1..], width);
    }
  }

  /** The characters that are neither a space nor a line break. */
  function Letters(text: Text): Text {
    if text == [] then []
    else (if text[0] == SPACE || text[0] == NEWLINE then [] else [text[0]]) + Letters(text[1..])
  }

  lemma {:induction false} LettersAppend(a: Text, b: Text)
    ensures Letters(a + b) == Letters(a) + Letters(b)
  {
    if a == [] {
      assert a + b == b;
    } else {
      assert (a + b)[1..] == a[1..] + b;
      LettersAppend(a[1..], b);
    }
  }

  lemma {:induction false} LettersJoin(parts: seq<Text>, c: char)
    requires c == SPACE || c == NEWLINE
    ensures Letters(Join(parts, c)) == Letters(Concat(parts))
  {
    if |parts| == 1 {
      assert parts == [parts[0]];
      ConcatOne(parts[0]);
    } else if parts != [] {
      LettersJoin(parts[1..], c);
      LettersGlue(parts[0], c, Join(parts[1..], c));
      LettersAppend(parts[0], Concat(parts[1..]));
    }
  }

  lemma {:induction false} PutAllKeepsLetters(f: Fill, pieces: seq<Text>, w: nat)
    ensures Letters(Concat(Lines(PutAll(f, pieces, w)))) == Letters(Concat(Lines(f))) + Letters(Concat(pieces))
    decreases |pieces|
  {
    if pieces != [] {
      PutKeepsLetters(f, pieces[0], w);
      PutAllKeepsLetters(Put(f, pieces[0], w), pieces[1..], w);
      LettersAppend(pieces[0], Concat(pieces[1..]));
    }
  }

  lemma PutKeepsLetters(f: Fill, piece: Text, w: nat)
    ensures Letters(Concat(Lines(Put(f, piece, w)))) == Letters(Concat(Lines(f))) + Letters(piece)
  {
    var done := Concat(f.done);
    ConcatSnoc(f.done, f.line);
    LettersAppend(done, f.line);
    if f.line == [] {
      ConcatSnoc(f.done, piece);
      LettersAppend(done, piece);
    } else if |f.line| + 1 + |piece| <= w {
      ConcatSnoc(f.done, f.line + [SPACE] + piece);
      LettersAppend(done, f.line + [SPACE] + piece);
      LettersGlue(f.line, SPACE, piece);
    } else {
      ConcatSnoc(f.done + [f.line], piece);
      LettersAppend(done + f.line, piece);
    }
  }

  lemma NoLetter(c: char)
    requires c == SPACE || c == NEWLINE
    ensures Letters([c]) == []
  {
    var none: Text := [];
    assert [c][1..] == none && Letters(none) == none && none + none == none;
  }

  lemma LettersGlue(line: Text, c: char, piece: Text)
    requires c == SPACE || c == NEWLINE
    ensures Letters(line + [c] + piece) == Letters(line) + Letters(piece)
  {
    LettersAppend(line + [c], piece);
    LettersAppend(line, [c]);
    NoLetter(c);
    assert Letters(line) + [] == Letters(line);
  }

  lemma ConcatOne(line: Text)
    ensures Concat([line]) == line
  {
    assert [line][1..] == [];
    assert line + [] == line;
  }

  lemma ConcatSnoc(done: seq<Text>, line: Text)
    ensures Concat(done + [line]) == Concat(done) + line
  {
    ConcatAppend(done, [line]);
    ConcatOne(line);
  }

  lemma ParagraphKeepsLetters(para: Text, w: nat)
    requires w >= 1 && NEWLINE !in para
    ensures Letters(Concat(WrapParagraph(para, w))) == Letters(para)
  {
    ParagraphPiecesOk(para, w);
    PutAllKeepsLetters(Fill([], []), ParagraphPieces(para, w), w);
    ConcatOne([]);
    SplitParts(para, SPACE);
    LettersJoin(Split(para, SPACE), SPACE);
  }

  lemma {:induction false} ParagraphsKeepLetters(paras: seq<Text>, w: nat)
    requires w >= 1 && forall i | 0 <= i < |paras| :: NEWLINE !in paras[i]
    ensures Letters(Concat(WrapParagraphs(paras, w))) == Letters(Concat(paras))
  {
    if paras != [] {
      ParagraphKeepsLetters(paras[0], w);
      ParagraphsKeepLetters(paras[1..], w);
      ConcatAppend(WrapParagraph(paras[0], w), WrapParagraphs(paras[1..], w));
      LettersAppend(Concat(WrapParagraph(paras[0], w)), Concat(WrapParagraphs(paras[1..], w)));
      LettersAppend(paras[0], Concat(paras[1..]));
    }
  }

  /** Wrapping keeps every character that is not a space or a line break, in order. */
  lemma WrapKeepsLetters(text: Text, width: int)
    ensures Letters(Wrap(text, width)) == Letters(text)
  {
    var w, paras := Budget(width), Split(text, NEWLINE);
    SplitParts(text, NEWLINE);
    ParagraphsKeepLetters(paras, w);
    LettersJoin(WrapParagraphs(paras, w), NEWLINE);
    LettersJoin(paras, NEWLINE);
  }

  // --- padLines --------------------------------------------------------------------------------------------------

  function PadAll(lines: seq<Text>, width: int): seq<Text> {
    if lines == [] then []
    else [if |lines[0]| < width then lines[0] + Blanks(width - |lines[0]|) else lines[0]] + PadAll(lines[1..], width)
  }

  function Pad(text: Text, width: int): Text {
    Join(PadAll(Split(text, NEWLINE), width), NEWLINE)
  }

  ghost predicate Rectangle(text: Text, width: int) {
    forall i | 0 <= i < |Split(text, NEWLINE)| :: |Split(text, NEWLINE)[i]| == width
  }

  lemma {:induction false} PadAllWidth(lines: seq<Text>, width: int)
    requires forall i | 0 <= i < |lines| :: NEWLINE !in lines[i]
    ensures |PadAll(lines, width)| == |lines|
    ensures forall i | 0 <= i < |lines| :: NEWLINE !in PadAll(lines, width)[i]
    ensures forall i | 0 <= i < |lines| :: |PadAll(lines, width)[i]| == if |lines[i]| < width then width else |lines[i]|
  {
    if lines != [] {
      PadAllWidth(lines[1..], width);
    }
  }

  /** Padding only adds spaces, at the end of lines too short. */
  lemma {:induction false} PadAllAppends(lines: seq<Text>, width: int)
    ensures |PadAll(lines, width)| == |lines|
    ensures forall i | 0 <= i < |lines| ::
              lines[i] <= PadAll(lines, width)[i] && OnlySpaces(PadAll(lines, width)[i][|lines[i]|..])
  {
    if lines != [] {
      PadAllAppends(lines[1..], width);
    }
  }

  predicate OnlySpaces(text: Text) {
    forall i | 0 <= i < |text| :: text[i] == SPACE
  }

  /** Every line of a padded text is the line that was there, and then spaces. */
  lemma PadKeepsLines(text: Text, width: int)
    ensures var before, after := Split(text, NEWLINE), Split(Pad(text, width), NEWLINE);
            && |after| == |before|
            && (forall i | 0 <= i < |before| :: before[i] <= after[i] && OnlySpaces(after[i][|before[i]|..]))
            && (forall i | 0 <= i < |before| :: |after[i]| == if |before[i]| < width then width else |before[i]|)
  {
    SplitParts(text, NEWLINE);
    PadAllWidth(Split(text, NEWLINE), width);
    PadAllAppends(Split(text, NEWLINE), width);
    SplitJoin(PadAll(Split(text, NEWLINE), width), NEWLINE);
  }

  /** What the pane draws is a full rectangle, whatever the text, exactly when it is at least as
      wide as the wrap's own minimum. */
  lemma DrawnPaneIsARectangleIff(width: int)
    ensures width >= 2 <==> forall text :: Rectangle(Pad(Wrap(text, width), width), width)
  {
    if width >= 2 {
      forall text
        ensures Rectangle(Pad(Wrap(text, width), width), width)
      {
        var lines := Split(Wrap(text, width), NEWLINE);
        WrapFitsAndIsIdempotent(text, width);
        SplitParts(Wrap(text, width), NEWLINE);
        PadAllWidth(lines, width);
        SplitJoin(PadAll(lines, width), NEWLINE);
      }
    } else {
      var text: Text := ['a', 'b'];
      NarrowPane(text, width);
    }
  }

  lemma NarrowPane(text: Text, width: int)
    requires text == ['a', 'b'] && width < 2
    ensures !Rectangle(Pad(Wrap(text, width), width), width)
  {
    SplitWhole(text, NEWLINE);
    assert Line([text]) == text;
    RewrapGroup([text], 2);
    assert WrapParagraphs([text], 2) == [text] + WrapParagraphs([], 2);
    assert WrapParagraphs([text], 2) == [text];
    assert Wrap(text, width) == text;
    assert PadAll([text], width) == [text] + PadAll([], width);
    assert PadAll([text], width) == [text];
    assert Pad(text, width) == text;
  }
}
