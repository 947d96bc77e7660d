/**
  The heuristic summarizer of the news tool (`simple_summarize`): a fixed
  clean-up of HTML line breaks and non-breaking spaces, a left-to-right
  scan that cuts the text after every sentence-ending character, and the
  first few stripped pieces joined by one space.

  The scan is modelled as the source's loop; `Chunks` and `Sentences` are
  the specification it is proved against, and the lemmas below say what the
  segmentation and the summary are.
*/
module Summarizer {
  import opened Text

  /** What an empty input summarizes to. */
  const Placeholder: string := "(요약할 내용이 없습니다.)"

  /** Sentence-ending punctuation plus the two Korean clause endings 다 and 요. */
  predicate IsBoundary(c: char) {
    c == '.' || c == '?' || c == '!' || c == '？' || c == '！' || c == '다' || c == '요'
  }

  predicate NoBoundary(s: string) {
    forall i :: 0 <= i < |s| ==> !IsBoundary(s[i])
  }

  /** The fixed substitution list applied before segmentation. */
  function Clean(text: string): (cleaned: string)
    ensures |cleaned| <= |text|
  {
    var noBr := ReplaceAll(text, "<br>", ". ");
    var noBrSlash := ReplaceAll(noBr, "<br/>", ". ");
    var noBrSpace := ReplaceAll(noBrSlash, "<br />", ". ");
    ReplaceAll(noBrSpace, "&nbsp;", " ")
  }

  /** Text holding neither `<` nor `&` is left alone by the clean-up. */
  lemma CleanKeepsPlainText(text: string)
    requires '<' !in text && '&' !in text
    ensures Clean(text) == text
  {
    NotContainsByFirst(text, "<br>");
    NotContainsByFirst(text, "<br/>");
    NotContainsByFirst(text, "<br />");
    NotContainsByFirst(text, "&nbsp;");
  }

  lemma {:induction false} NotContainsByFirst(s: string, pat: string)
    requires pat != [] && pat[0] !in s
    ensures !Contains(s, pat)
    decreases |s|
  {
    if s != [] {
      assert s[0] in s;
      NotContainsByFirst(s[1..], pat);
    }
  }

  function FirstBoundary(s: string): (k: nat)
    requires !NoBoundary(s)
    ensures k < |s| && IsBoundary(s[k]) && NoBoundary(s[..k])
    decreases |s|
  {
    if IsBoundary(s[0]) then 0
    else
      var k := FirstBoundary(s[1..]);
      assert s[..k + 1] == [s[0]] + s[1..][..k];
      k + 1
  }

  /** The raw pieces the scan cuts the text into: each ends at its first boundary character. */
  function Chunks(s: string): (chunks: seq<string>)
    ensures |chunks| <= |s|
    decreases |s|
  {
    if s == [] then []
    else if NoBoundary(s) then [s]
    else
      var k := FirstBoundary(s);
      [s[..k + 1]] + Chunks(s[k + 1..])
  }

  /** The stripped chunks, leaving out the ones that strip to nothing. */
  function Kept(chunks: seq<string>): (kept: seq<string>)
    ensures |kept| <= |chunks|
    decreases |chunks|
  {
    if chunks == [] then []
    else (if Strip(chunks[0]) != [] then [Strip(chunks[0])] else []) + Kept(chunks[1..])
  }

  function Sentences(s: string): (sentences: seq<string>)
    ensures s == [] ==> sentences == []
    ensures |sentences| <= |Chunks(s)|
  {
    Kept(Chunks(s))
  }

  /** The value `simple_summarize(text, maxSentences)` returns. */
  function Summary(text: string, maxSentences: int): (summary: string)
    ensures text == [] ==> summary == Placeholder
    ensures text != [] ==> summary == [] || (!IsSpace(summary[0]) && !IsSpace(summary[|summary| - 1]))
  {
    if text == [] then Placeholder
    else
      var cleaned := Clean(text);
      var joined := Joined(Sentences(cleaned), cleaned, maxSentences);
      StripEnds(joined);
      Strip(joined)
  }

  /** The text before the final strip: the first sentences joined by a space, or the cleaned text when there are none. */
  function Joined(sentences: seq<string>, cleaned: string, maxSentences: int): string {
    if sentences == [] then cleaned else Join(PyTake(sentences, maxSentences), " ")
  }

  /** `simple_summarize` (news_chatbot.py, lines 308-339). */
  method SimpleSummarize(text: string, maxSentences: int := 2) returns (summary: string)
    ensures summary == Summary(text, maxSentences)
  {
    if text == [] {
      return Placeholder;
    }
    var cleaned := Clean(text);
    var sentences := Segment(cleaned);
    if sentences == [] {
      return Strip(cleaned);
    }
    summary := Join(PyTake(sentences, maxSentences), " ");
    summary := Strip(summary);
  }

  /** The character scan of `simple_summarize`: the stripped pieces, cut after each boundary character. */
  method Segment(cleaned: string) returns (sentences: seq<string>)
    ensures sentences == Sentences(cleaned)
  {
    sentences := [];
    var current: string := "";
    assert current + cleaned[0..] == cleaned;
    for i := 0 to |cleaned|
      invariant NoBoundary(current)
      invariant sentences + Sentences(current + cleaned[i..]) == Sentences(cleaned)
    {
      var ch := cleaned[i];
      ScanStep(cleaned, i, sentences, current, Sentences(cleaned));
      current := current + [ch];
      if IsBoundary(ch) {
        if Strip(current) != [] {
          sentences := sentences + [Strip(current)];
          current := "";
        } else {
          assert false;
        }
      }
    }
    ScanEnd(cleaned, sentences, current);
    if Strip(current) != [] {
      sentences := sentences + [Strip(current)];
    }
  }

  /**
    One character of the scan keeps the loop's account of the sentences
    still to come (`target` stands for the sentences of the whole text).
  */
  lemma ScanStep(cleaned: string, i: nat, sentences: seq<string>, current: string, target: seq<string>)
    requires i < |cleaned| && NoBoundary(current)
    requires sentences + Sentences(current + cleaned[i..]) == target
    ensures IsBoundary(cleaned[i]) ==>
      Strip(current + [cleaned[i]]) != [] && sentences + [Strip(current + [cleaned[i]])] + Sentences("" + cleaned[i + 1..]) == target
    ensures !IsBoundary(cleaned[i]) ==>
      NoBoundary(current + [cleaned[i]]) && sentences + Sentences(current + [cleaned[i]] + cleaned[i + 1..]) == target
  {
    if IsBoundary(cleaned[i]) {
      ScanStepCut(cleaned, i, sentences, current, target);
    } else {
      ScanStepKeep(cleaned, i, sentences, current, target);
    }
  }

  lemma ScanStepCut(cleaned: string, i: nat, sentences: seq<string>, current: string, target: seq<string>)
    requires i < |cleaned| && NoBoundary(current) && IsBoundary(cleaned[i])
    requires sentences + Sentences(current + cleaned[i..]) == target
    ensures Strip(current + [cleaned[i]]) != []
    ensures sentences + [Strip(current + [cleaned[i]])] + Sentences("" + cleaned[i + 1..]) == target
  {
    ShiftOne(current, cleaned, i);
    ScanCut(sentences, current, cleaned[i], cleaned[i + 1..], target);
  }

  lemma ScanStepKeep(cleaned: string, i: nat, sentences: seq<string>, current: string, target: seq<string>)
    requires i < |cleaned| && NoBoundary(current) && !IsBoundary(cleaned[i])
    requires sentences + Sentences(current + cleaned[i..]) == target
    ensures NoBoundary(current + [cleaned[i]])
    ensures sentences + Sentences(current + [cleaned[i]] + cleaned[i + 1..]) == target
  {
    ShiftOne(current, cleaned, i);
    NoBoundarySnoc(current, cleaned[i]);
  }

  /** Moving the next character from the unscanned text onto the current piece. */
  lemma ShiftOne(current: string, cleaned: string, i: nat)
    requires i < |cleaned|
    ensures current + cleaned[i..] == current + [cleaned[i]] + cleaned[i + 1..]
  {
    assert cleaned[i..] == [cleaned[i]] + cleaned[i + 1..];
  }

  /** At a boundary character the grown piece becomes the next sentence. */
  lemma ScanCut(sentences: seq<string>, current: string, ch: char, rest: string, target: seq<string>)
    requires NoBoundary(current) && IsBoundary(ch)
    requires sentences + Sentences(current + [ch] + rest) == target
    ensures Strip(current + [ch]) != []
    ensures sentences + [Strip(current + [ch])] + Sentences("" + rest) == target
  {
    assert "" + rest == rest;
    SentencesAfterBoundary(current, ch, rest);
  }

  lemma NoBoundarySnoc(p: string, c: char)
    requires NoBoundary(p) && !IsBoundary(c)
    ensures NoBoundary(p + [c])
  {
    assert forall j :: 0 <= j < |p| ==> (p + [c])[j] == p[j];
  }

  /** Once the text is used up, what is left to emit is the stripped remainder, if any. */
  lemma ScanEnd(cleaned: string, sentences: seq<string>, current: string)
    requires NoBoundary(current)
    requires sentences + Sentences(current + cleaned[|cleaned|..]) == Sentences(cleaned)
    ensures Sentences(cleaned) == sentences + if Strip(current) != [] then [Strip(current)] else []
  {
    assert current + cleaned[|cleaned|..] == current;
    SentencesOfUncut(current);
  }

  /** A boundary character is never whitespace, so a piece ending in one never strips to nothing. */
  lemma StripEndingInBoundary(p: string, c: char)
    requires IsBoundary(c)
    ensures Strip(p + [c]) != []
  {
    StripEmptyIffBlank(p + [c]);
    assert (p + [c])[|p|] == c;
  }

  lemma ChunksAfterBoundary(p: string, c: char, rest: string)
    requires NoBoundary(p) && IsBoundary(c)
    ensures Chunks(p + [c] + rest) == [p + [c]] + Chunks(rest)
  {
    var s := p + [c] + rest;
    assert s[|p|] == c;
    assert forall i :: 0 <= i < |p| ==> s[i] == p[i];
    var k := FirstBoundary(s);
    assert k <= |p| by {
      assert forall i :: 0 <= i < k ==> s[..k][i] == s[i];
    }
    assert k == |p|;
    assert s[..k + 1] == p + [c];
    assert s[k + 1..] == rest;
  }

  lemma SentencesAfterBoundary(p: string, c: char, rest: string)
    requires NoBoundary(p) && IsBoundary(c)
    ensures Strip(p + [c]) != []
    ensures Sentences(p + [c] + rest) == [Strip(p + [c])] + Sentences(rest)
  {
    ChunksAfterBoundary(p, c, rest);
    StripEndingInBoundary(p, c);
    var cs := Chunks(p + [c] + rest);
    assert cs[1..] == Chunks(rest);
  }

  lemma SentencesOfUncut(s: string)
    requires NoBoundary(s)
    ensures Sentences(s) == if Strip(s) != [] then [Strip(s)] else []
  {
    if s == [] {
      assert Strip(s) == [];
    } else {
      assert Chunks(s) == [s];
      assert Kept([s]) == (if Strip(s) != [] then [Strip(s)] else []) + Kept([]);
    }
  }

  // ----- What the segmentation is -----

  function Concat(parts: seq<string>): string
    decreases |parts|
  {
    if parts == [] then [] else parts[0] + Concat(parts[1..])
  }

  /** The raw chunks put back together give the cleaned text. */
  lemma {:induction false} ChunksConcat(s: string)
    ensures Concat(Chunks(s)) == s
    decreases |s|
  {
    if s == [] {
    } else if NoBoundary(s) {
      assert Chunks(s) == [s];
      ConcatCons(s, []);
    } else {
      var k := FirstBoundary(s);
      ChunksCons(s, k);
      ConcatCons(s[..k + 1], Chunks(s[k + 1..]));
      ChunksConcat(s[k + 1..]);
      assert s[..k + 1] + s[k + 1..] == s;
    }
  }

  lemma ConcatCons(x: string, rest: seq<string>)
    ensures Concat([x] + rest) == x + Concat(rest)
  {
    assert ([x] + rest)[1..] == rest;
  }

  /** A text with a boundary character opens with the chunk that ends at the first one. */
  lemma ChunksCons(s: string, k: nat)
    requires !NoBoundary(s) && k == FirstBoundary(s)
    ensures Chunks(s) == [s[..k + 1]] + Chunks(s[k + 1..])
  {
  }

  /**
    A chunk is non-empty and holds no boundary character before its last
    one; unless it is the trailing chunk, it ends with a boundary character.
  */
  predicate ChunkShaped(c: string, trailing: bool) {
    c != [] && NoBoundary(c[..|c| - 1]) && (!trailing ==> IsBoundary(c[|c| - 1]))
  }

  /** Every chunk has the shape above. */
  lemma {:induction false} ChunkShape(s: string)
    ensures forall j :: 0 <= j < |Chunks(s)| ==> ChunkShaped(Chunks(s)[j], j == |Chunks(s)| - 1)
    decreases |s|
  {
    if s != [] {
      if NoBoundary(s) {
        assert Chunks(s) == [s];
        assert NoBoundary(s[..|s| - 1]) by {
          assert forall i :: 0 <= i < |s| - 1 ==> s[..|s| - 1][i] == s[i];
        }
      } else {
        var k := FirstBoundary(s);
        var rest := Chunks(s[k + 1..]);
        ChunkShape(s[k + 1..]);
        ChunksCons(s, k);
        FirstChunkShape(s, k);
        var cs := Chunks(s);
        forall j | 0 <= j < |cs|
          ensures ChunkShaped(cs[j], j == |cs| - 1)
        {
          if j > 0 {
            assert cs[j] == rest[j - 1];
          }
        }
      }
    }
  }

  lemma FirstChunkShape(s: string, k: nat)
    requires !NoBoundary(s) && k == FirstBoundary(s)
    ensures var c := s[..k + 1];
      c != [] && NoBoundary(c[..|c| - 1]) && IsBoundary(c[|c| - 1])
  {
    assert s[..k + 1][..k] == s[..k];
  }

  /**
    The sentences are the stripped chunks in order; only the trailing chunk
    can be missing (when it is blank), and every sentence is non-empty with
    no whitespace at either end.
  */
  lemma SentencesAreStrippedChunks(s: string)
    ensures |Chunks(s)| - 1 <= |Sentences(s)| <= |Chunks(s)|
    ensures forall j :: 0 <= j < |Sentences(s)| ==> Sentences(s)[j] == Strip(Chunks(s)[j])
    ensures forall j :: 0 <= j < |Sentences(s)| ==> IsSentence(Sentences(s)[j])
  {
    NonTrailingChunksKept(s);
    KeptAllButLast(Chunks(s));
    KeptAreSentences(Chunks(s));
  }

  lemma NonTrailingChunksKept(s: string)
    ensures forall j :: 0 <= j < |Chunks(s)| - 1 ==> Strip(Chunks(s)[j]) != []
  {
    ChunkShape(s);
    ShapedChunksKept(Chunks(s));
  }

  /** Every chunk that ends with a boundary character keeps something once stripped. */
  lemma ShapedChunksKept(cs: seq<string>)
    requires forall j :: 0 <= j < |cs| ==> ChunkShaped(cs[j], j == |cs| - 1)
    ensures forall j :: 0 <= j < |cs| - 1 ==> Strip(cs[j]) != []
  {
    forall j | 0 <= j < |cs| - 1
      ensures Strip(cs[j]) != []
    {
      var c := cs[j];
      assert ChunkShaped(c, false);
      assert c == c[..|c| - 1] + [c[|c| - 1]];
      StripEndingInBoundary(c[..|c| - 1], c[|c| - 1]);
    }
  }

  /** When only the last piece can strip to nothing, at most that one is left out. */
  lemma {:induction false} KeptAllButLast(chunks: seq<string>)
    requires forall j :: 0 <= j < |chunks| - 1 ==> Strip(chunks[j]) != []
    ensures |chunks| - 1 <= |Kept(chunks)| <= |chunks|
    ensures forall j :: 0 <= j < |Kept(chunks)| ==> Kept(chunks)[j] == Strip(chunks[j])
    decreases |chunks|
  {
    if chunks != [] {
      KeptAllButLast(chunks[1..]);
      if |chunks| > 1 {
        assert Strip(chunks[0]) != [];
        assert Kept(chunks) == [Strip(chunks[0])] + Kept(chunks[1..]);
      } else {
        assert Kept(chunks[1..]) == [];
      }
    }
  }

  lemma {:induction false} KeptAreSentences(chunks: seq<string>)
    ensures AllSentences(Kept(chunks))
    decreases |chunks|
  {
    if chunks != [] {
      KeptAreSentences(chunks[1..]);
      var head := if Strip(chunks[0]) != [] then [Strip(chunks[0])] else [];
      if head != [] {
        StripEnds(chunks[0]);
        assert IsSentence(head[0]);
      }
      AllSentencesConcat(head, Kept(chunks[1..]));
      assert Kept(chunks) == head + Kept(chunks[1..]);
    }
  }

  predicate AllSentences(ss: seq<string>) {
    forall j :: 0 <= j < |ss| ==> IsSentence(ss[j])
  }

  lemma AllSentencesConcat(a: seq<string>, b: seq<string>)
    requires AllSentences(a) && AllSentences(b)
    ensures AllSentences(a + b)
  {
    forall j | |a| <= j < |a + b|
      ensures IsSentence((a + b)[j])
    {
      assert (a + b)[j] == b[j - |a|];
    }
  }

  /** The first chunk and the sentences after it. */
  lemma SentencesSplit(s: string, k: nat)
    requires !NoBoundary(s) && k == FirstBoundary(s)
    ensures Chunks(s) == [s[..k + 1]] + Chunks(s[k + 1..])
    ensures Sentences(s) == [Strip(s[..k + 1])] + Sentences(s[k + 1..])
  {
    assert s == s[..k] + [s[k]] + s[k + 1..];
    assert s[..k] + [s[k]] == s[..k + 1];
    SentencesAfterBoundary(s[..k], s[k], s[k + 1..]);
  }

  /** A sentence as the summarizer emits it: non-empty, no whitespace at either end. */
  predicate IsSentence(t: string) {
    t != [] && !IsSpace(t[0]) && !IsSpace(t[|t| - 1])
  }

  /** Text with a non-whitespace character yields at least one sentence. */
  lemma SentencesOfNonBlank(s: string)
    requires !Blank(s)
    ensures Sentences(s) != []
  {
    assert s != [];
    if NoBoundary(s) {
      SentencesOfUncut(s);
      StripEmptyIffBlank(s);
    } else {
      var k := FirstBoundary(s);
      assert s == s[..k] + [s[k]] + s[k + 1..];
      SentencesAfterBoundary(s[..k], s[k], s[k + 1..]);
    }
  }

  /** Blank text yields no sentences. */
  lemma SentencesOfBlank(s: string)
    requires Blank(s)
    ensures Sentences(s) == [] && Strip(s) == []
  {
    assert NoBoundary(s) by {
      forall i | 0 <= i < |s| ensures !IsBoundary(s[i]) {
        assert IsSpace(s[i]);
      }
    }
    SentencesOfUncut(s);
    StripEmptyIffBlank(s);
  }

  lemma {:induction false} JoinOfSentences(parts: seq<string>)
    requires forall j :: 0 <= j < |parts| ==> IsSentence(parts[j])
    ensures parts == [] ==> Join(parts, " ") == []
    ensures parts != [] ==> IsSentence(Join(parts, " "))
    decreases |parts|
  {
    if |parts| > 1 {
      JoinOfSentences(parts[1..]);
      var rest := Join(parts[1..], " ");
      assert (parts[0] + " " + rest)[0] == parts[0][0];
    }
  }

  // ----- What the summary is -----

  /** An empty text summarizes to the fixed placeholder. */
  lemma SummaryOfEmpty(maxSentences: int)
    ensures Summary("", maxSentences) == Placeholder
  {
  }

  /**
    A non-empty text that is blank once cleaned (only whitespace, or only
    `&nbsp;` entities) summarizes to the empty string, not the placeholder.
  */
  lemma SummaryOfBlank(text: string, maxSentences: int)
    requires text != [] && Blank(Clean(text))
    ensures Summary(text, maxSentences) == ""
  {
    SentencesOfBlank(Clean(text));
  }

  /**
    A non-empty text made only of whitespace and `&nbsp;` entities, in any
    number and order, summarizes to the empty string.
  */
  lemma SummaryOfSpacesAndNbsp(text: string, maxSentences: int)
    requires text != [] && SpacesAnd(text, "&nbsp;")
    ensures Summary(text, maxSentences) == ""
  {
    CleanOfSpacesAndNbsp(text);
    SummaryOfBlank(text, maxSentences);
  }

  /** For instance, two entities between spaces. */
  lemma SummaryOfSpacedEntities(maxSentences: int)
    ensures Summary(" &nbsp;&nbsp; ", maxSentences) == ""
  {
    var t := " &nbsp;&nbsp; ";
    assert SpacesAnd(t[13..], "&nbsp;");
    assert SpacesAnd(t[7..], "&nbsp;") by { assert t[7..][6..] == t[13..]; }
    assert SpacesAnd(t[1..], "&nbsp;") by { assert t[1..][6..] == t[7..]; }
    SummaryOfSpacesAndNbsp(t, maxSentences);
  }

  /**
    Such a text holds no `<`, so the three line-break replacements leave it
    alone, and turning each entity into a space leaves it blank.
  */
  lemma CleanOfSpacesAndNbsp(text: string)
    requires SpacesAnd(text, "&nbsp;")
    ensures Blank(Clean(text))
  {
    SpacesAndAvoids(text, "&nbsp;", '<');
    NotContainsByFirst(text, "<br>");
    NotContainsByFirst(text, "<br/>");
    NotContainsByFirst(text, "<br />");
    assert Blank(" ");
    ReplaceAllBlank(text, "&nbsp;", " ");
  }

  /**
    Otherwise the summary is the first `maxSentences` sentences joined by a
    single space: no stripping is left to do, and no more than
    `maxSentences` sentences appear. With at least one sentence requested,
    the summary is non-empty and has no whitespace at either end.
  */
  lemma SummaryIsFirstSentences(text: string, maxSentences: nat)
    requires text != [] && !Blank(Clean(text))
    ensures var sentences := Sentences(Clean(text));
      && sentences != []
      && Summary(text, maxSentences) == Join(sentences[..Min(maxSentences, |sentences|)], " ")
    ensures maxSentences >= 1 ==> IsSentence(Summary(text, maxSentences))
  {
    var cleaned := Clean(text);
    var sentences := Sentences(cleaned);
    SentencesOfNonBlank(cleaned);
    SentencesAreStrippedChunks(cleaned);
    var taken := PyTake(sentences, maxSentences);
    assert taken == sentences[..Min(maxSentences, |sentences|)];
    JoinOfSentences(taken);
    StripFixed(Join(taken, " "));
  }

  /** A character that is neither whitespace, a boundary, nor the start of a substituted markup. */
  predicate IsWordChar(c: char) {
    !IsSpace(c) && !IsBoundary(c) && c != '<' && c != '&'
  }

  /**
    Three one-letter sentences, two requested: `"A. B. C."` summarizes to
    `"A. B."`, and likewise for any other three word characters.
  */
  lemma ThreeSentencesTakeTwo(a: char, b: char, c: char)
    requires IsWordChar(a) && IsWordChar(b) && IsWordChar(c)
    ensures Summary([a, '.', ' ', b, '.', ' ', c, '.'], 2) == [a, '.', ' ', b, '.']
  {
    var text := [a, '.', ' ', b, '.', ' ', c, '.'];
    CleanKeepsPlainText(text);
    ThreeSentences(a, b, c);
    FirstTwoJoined(a, b, c);
    StripFixed([a, '.', ' ', b, '.']);
  }

  /** The worked example with the letters A, B and C. */
  lemma SummaryExample()
    ensures Summary("A. B. C.", 2) == "A. B."
  {
    ThreeSentencesTakeTwo('A', 'B', 'C');
  }

  lemma FirstTwoJoined(a: char, b: char, c: char)
    ensures Join(PyTake([[a, '.'], [b, '.'], [c, '.']], 2), " ") == [a, '.', ' ', b, '.']
  {
    assert PyTake([[a, '.'], [b, '.'], [c, '.']], 2) == [[a, '.'], [b, '.']];
  }

  lemma ThreeSentences(a: char, b: char, c: char)
    requires IsWordChar(a) && IsWordChar(b) && IsWordChar(c)
    ensures Sentences([a, '.', ' ', b, '.', ' ', c, '.']) == [[a, '.'], [b, '.'], [c, '.']]
  {
    var last := [' ', c, '.'];
    var rest := [' ', b, '.'] + last;
    assert Sentences([]) == [];
    SpacedSentenceThen(c, [], []);
    assert last + [] == last;
    SpacedSentenceThen(b, last, [[c, '.']]);
    SentenceThen(a, rest, [[b, '.'], [c, '.']]);
    ThreeSentenceText(a, b, c);
    ConsOntoPair([a, '.'], [b, '.'], [c, '.']);
  }

  lemma ThreeSentenceText(a: char, b: char, c: char)
    ensures [a, '.'] + ([' ', b, '.'] + [' ', c, '.']) == [a, '.', ' ', b, '.', ' ', c, '.']
  {
  }

  lemma ConsOntoPair(x: string, y: string, z: string)
    ensures [x] + [y, z] == [x, y, z]
  {
  }

  /** A one-letter sentence ending in a full stop, then whatever follows. */
  lemma SentenceThen(a: char, rest: string, later: seq<string>)
    requires IsWordChar(a) && Sentences(rest) == later
    ensures Sentences([a, '.'] + rest) == [[a, '.']] + later
  {
    assert [a] + ['.'] == [a, '.'];
    SentencesAfterBoundary([a], '.', rest);
    StripFixed([a, '.']);
  }

  /** The same after a separating space, which the strip removes. */
  lemma SpacedSentenceThen(b: char, rest: string, later: seq<string>)
    requires IsWordChar(b) && Sentences(rest) == later
    ensures Sentences([' ', b, '.'] + rest) == [[b, '.']] + later
  {
    assert [' ', b] + ['.'] == [' ', b, '.'];
    assert NoBoundary([' ', b]);
    SentencesAfterBoundary([' ', b], '.', rest);
    StripLeadingSpace(b);
  }

  lemma StripLeadingSpace(c: char)
    requires IsWordChar(c)
    ensures Strip([' ', c, '.']) == [c, '.']
  {
    assert TrimLeft([' ', c, '.']) == TrimLeft([c, '.']) by {
      assert [' ', c, '.'][1..] == [c, '.'];
    }
    StripFixed([c, '.']);
  }
}
