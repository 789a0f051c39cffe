/** Extraction of untranslated source-script words from earlier destination
    lines: maximal runs of characters of the source language's Unicode block,
    each reported once, in the order they were first seen. */
module ResidueWords {
  import opened Base

  predicate IsHan(c: char) { '\U{4E00}' <= c <= '\U{9FFF}' }
  predicate IsHiragana(c: char) { '\U{3040}' <= c <= '\U{309F}' }
  predicate IsKatakana(c: char) { '\U{30A0}' <= c <= '\U{30FF}' }
  predicate IsHangeul(c: char) { '\U{AC00}' <= c <= '\U{D7AF}' }
  predicate IsCyrillic(c: char) { '\U{0400}' <= c <= '\U{04FF}' }
  predicate IsArabic(c: char) { '\U{0600}' <= c <= '\U{06FF}' }
  predicate IsThai(c: char) { '\U{0E00}' <= c <= '\U{0E7F}' }

  // ---------------------------------------------------------------------------
  // `re.findall(r'[<block>]+', s)`

  /** Length of the longest prefix of `s` made of characters satisfying `p`. */
  function RunLength(s: string, p: char -> bool): (n: nat)
    ensures n <= |s|
    ensures forall j :: 0 <= j < n ==> p(s[j])
    ensures n < |s| ==> !p(s[n])
  {
    if s != [] && p(s[0]) then 1 + RunLength(s[1..], p) else 0
  }

  /** The maximal runs of `p`-characters of `s`, left to right. */
  function Runs(s: string, p: char -> bool): seq<string>
    decreases |s|
  {
    if s == [] then []
    else if !p(s[0]) then Runs(s[1..], p)
    else
      var n := RunLength(s, p);
      [s[..n]] + Runs(s[n..], p)
  }

  /** Every run found is non-empty and made only of `p`-characters. */
  lemma {:induction false} RunsInBlock(s: string, p: char -> bool)
    ensures forall w :: w in Runs(s, p) ==> w != [] && forall c :: c in w ==> p(c)
    decreases |s|
  {
    if s != [] {
      if !p(s[0]) {
        RunsInBlock(s[1..], p);
      } else {
        RunsInBlock(s[RunLength(s, p)..], p);
      }
    }
  }

  /** `w` sits in `s` at index `i` and cannot be extended on either side. */
  predicate MaximalRunAt(s: string, p: char -> bool, i: nat, w: string) {
    i + |w| <= |s| && s[i..i + |w|] == w
    && (i == 0 || !p(s[i - 1]))
    && (i + |w| == |s| || !p(s[i + |w|]))
  }

  /** A maximal run of a suffix `s[n..]` is a maximal run of `s`, unless it
      starts the suffix right after a `p`-character. */
  lemma MaximalShift(s: string, p: char -> bool, n: nat, i: nat, w: string)
    requires n <= |s| && MaximalRunAt(s[n..], p, i, w)
    requires i > 0 || n == 0 || !p(s[n - 1])
    ensures MaximalRunAt(s, p, n + i, w)
  {
    assert s[n + i..n + i + |w|] == s[n..][i..i + |w|];
  }

  /** A run found in a text that does not start with a `p`-character does not start it. */
  lemma RunNotAtStart(t: string, p: char -> bool, w: string, i: nat)
    requires w in Runs(t, p) && MaximalRunAt(t, p, i, w)
    requires t != [] ==> !p(t[0])
    ensures i > 0
  {
    RunsInBlock(t, p);
    assert t[i] == w[0];
  }

  /** Every run found is a maximal run of `s`. */
  lemma {:induction false} RunsAreMaximal(s: string, p: char -> bool, w: string)
    requires w in Runs(s, p)
    ensures exists i :: MaximalRunAt(s, p, i, w)
    decreases |s|
  {
    if !p(s[0]) {
      RunsAreMaximal(s[1..], p, w);
      var i: nat :| MaximalRunAt(s[1..], p, i, w);
      MaximalShift(s, p, 1, i, w);
    } else {
      var n := RunLength(s, p);
      if w == s[..n] {
        assert MaximalRunAt(s, p, 0, w);
      } else {
        var t := s[n..];
        assert w in Runs(t, p);
        RunsAreMaximal(t, p, w);
        var i: nat :| MaximalRunAt(t, p, i, w);
        RunNotAtStart(t, p, w, i);
        MaximalShift(s, p, n, i, w);
      }
    }
  }

  /** The characters of `s` that satisfy `p`, in order. */
  function Filter(s: string, p: char -> bool): string {
    if s == [] then [] else (if p(s[0]) then [s[0]] else []) + Filter(s[1..], p)
  }

  function Concat(ws: seq<string>): string {
    if ws == [] then [] else ws[0] + Concat(ws[1..])
  }

  lemma {:induction false} FilterAppend(a: string, b: string, p: char -> bool)
    ensures Filter(a + b, p) == Filter(a, p) + Filter(b, p)
  {
    if a != [] {
      var head := if p(a[0]) then [a[0]] else [];
      calc {
        Filter(a + b, p);
        { assert a + b != [] && (a + b)[0] == a[0] && (a + b)[1..] == a[1..] + b; }
        head + Filter(a[1..] + b, p);
        { FilterAppend(a[1..], b, p); }
        head + (Filter(a[1..], p) + Filter(b, p));
        (head + Filter(a[1..], p)) + Filter(b, p);
      }
    } else {
      assert a + b == b;
    }
  }

  lemma {:induction false} FilterKeepsAll(a: string, p: char -> bool)
    requires forall c :: c in a ==> p(c)
    ensures Filter(a, p) == a
  {
    if a != [] {
      FilterKeepsAll(a[1..], p);
    }
  }

  /** No matching character is missed: the runs, laid end to end, are exactly
      the characters of `s` in the block, in order. */
  lemma {:induction false} RunsCoverBlock(s: string, p: char -> bool)
    ensures Concat(Runs(s, p)) == Filter(s, p)
    decreases |s|
  {
    if s == [] {
    } else if !p(s[0]) {
      RunsCoverBlock(s[1..], p);
    } else {
      var n := RunLength(s, p);
      assert s == s[..n] + s[n..];
      FilterAppend(s[..n], s[n..], p);
      FilterKeepsAll(s[..n], p);
      RunsInBlock(s, p);
      RunsCoverBlock(s[n..], p);
      assert Runs(s, p)[1..] == Runs(s[n..], p);
    }
  }

  // ---------------------------------------------------------------------------
  // Per language, over all destinations.

  /** The character blocks `extract_residue_words` searches for a source
      language: for JA hiragana, then katakana; none for a language without a block. */
  function Blocks(lang: Lang): seq<char -> bool> {
    match lang
    case ZH => [IsHan]
    case JA => [IsHiragana, IsKatakana]
    case KO => [IsHangeul]
    case RU => [IsCyrillic]
    case AR => [IsArabic]
    case TH => [IsThai]
    case _ => []
  }

  /** The runs of each block in turn: `findall` of the first pattern, then of the next. */
  function RunsOfBlocks(dst: string, blocks: seq<char -> bool>): seq<string> {
    if blocks == [] then [] else Runs(dst, blocks[0]) + RunsOfBlocks(dst, blocks[1..])
  }

  /** The words one destination line yields for the source language. */
  function Matches(dst: string, lang: Lang): seq<string> {
    RunsOfBlocks(dst, Blocks(lang))
  }

  /** The words of all destinations, line after line. */
  function AllMatches(dsts: seq<string>, lang: Lang): seq<string> {
    if dsts == [] then [] else AllMatches(dsts[..|dsts| - 1], lang) + Matches(dsts[|dsts| - 1], lang)
  }

  /** `ws` with every repeat of an earlier word dropped. */
  function Dedup(ws: seq<string>): seq<string> {
    if ws == [] then []
    else
      var d := Dedup(ws[..|ws| - 1]);
      if ws[|ws| - 1] in d then d else d + [ws[|ws| - 1]]
  }

  /** What `extract_residue_words` returns. */
  function ResidueOf(dsts: seq<string>, lang: Lang): seq<string> {
    Dedup(AllMatches(dsts, lang))
  }

  predicate NoDuplicates(ws: seq<string>) {
    forall i, j :: 0 <= i < j < |ws| ==> ws[i] != ws[j]
  }

  /** Index of the first occurrence of `w` in `ws`. */
  function FirstIndex(ws: seq<string>, w: string): (k: nat)
    requires w in ws
    ensures k < |ws| && ws[k] == w && w !in ws[..k]
  {
    if ws[0] == w then 0 else 1 + FirstIndex(ws[1..], w)
  }

  lemma FirstIndexInPrefix(ws: seq<string>, n: nat, w: string)
    requires n <= |ws| && w in ws[..n]
    ensures FirstIndex(ws, w) == FirstIndex(ws[..n], w)
  {
  }

  /** Deduplication keeps each word once, keeps every word, and keeps them in
      the order of their first occurrence. */
  lemma {:induction false} DedupSpec(ws: seq<string>)
    ensures NoDuplicates(Dedup(ws))
    ensures forall w :: w in Dedup(ws) <==> w in ws
    ensures forall i, j :: 0 <= i < j < |Dedup(ws)| ==>
              FirstIndex(ws, Dedup(ws)[i]) < FirstIndex(ws, Dedup(ws)[j])
  {
    if ws != [] {
      var init, x := ws[..|ws| - 1], ws[|ws| - 1];
      DedupSpec(init);
      assert ws == init + [x];
      var d := Dedup(init);
      forall w | w in init ensures FirstIndex(ws, w) == FirstIndex(init, w) {
        FirstIndexInPrefix(ws, |init|, w);
      }
      if x !in d {
        assert FirstIndex(ws, x) == |init|;
      }
    }
  }

  lemma {:induction false} NoMatchesOutsideBlocks(dsts: seq<string>, lang: Lang)
    requires !(lang.ZH? || lang.JA? || lang.KO? || lang.RU? || lang.AR? || lang.TH?)
    ensures AllMatches(dsts, lang) == []
  {
    if dsts != [] {
      NoMatchesOutsideBlocks(dsts[..|dsts| - 1], lang);
    }
  }

  /** The residue list is empty for a language without a block, and for no input. */
  lemma ResidueEmpty(dsts: seq<string>, lang: Lang)
    requires dsts == [] || !(lang.ZH? || lang.JA? || lang.KO? || lang.RU? || lang.AR? || lang.TH?)
    ensures ResidueOf(dsts, lang) == []
  {
    if dsts != [] {
      NoMatchesOutsideBlocks(dsts, lang);
    }
  }

  /** One more word: it is appended exactly when it is new. */
  lemma DedupSnoc(ws: seq<string>, x: string)
    ensures Dedup(ws + [x]) == if x in ws then Dedup(ws) else Dedup(ws) + [x]
  {
    assert (ws + [x])[..|ws|] == ws;
    DedupSpec(ws);
  }

  /** The inner loop of `extract_residue_words`: appends each word of `matches`
      that is not yet in `seen`, and records it there. `done` is the list of
      words walked so far. */
  method AppendUnseen(words: seq<string>, seen: set<string>, matches: seq<string>, ghost done: seq<string>)
    returns (words': seq<string>, seen': set<string>)
    requires words == Dedup(done)
    requires forall w :: w in seen <==> w in done
    ensures words' == Dedup(done + matches)
    ensures forall w :: w in seen' <==> w in done + matches
  {
    words', seen' := words, seen;
    assert done + matches[..0] == done;
    for j := 0 to |matches|
      invariant words' == Dedup(done + matches[..j])
      invariant forall w :: w in seen' <==> w in done + matches[..j]
    {
      var word := matches[j];
      assert done + matches[..j + 1] == (done + matches[..j]) + [word];
      DedupSnoc(done + matches[..j], word);
      if word !in seen' {
        words' := words' + [word];
        seen' := seen' + {word};
      }
    }
    assert matches[..|matches|] == matches;
  }

  /** `extract_residue_words`: walks the destinations and, for each, the words
      of its matches, appending every word not seen before. */
  method ExtractResidueWords(dsts: seq<string>, lang: Lang) returns (words: seq<string>)
    ensures words == ResidueOf(dsts, lang)
  {
    words := [];
    var seen: set<string> := {};
    for i := 0 to |dsts|
      invariant words == Dedup(AllMatches(dsts[..i], lang))
      invariant forall w :: w in seen <==> w in AllMatches(dsts[..i], lang)
    {
      var matches := Matches(dsts[i], lang);
      assert AllMatches(dsts[..i + 1], lang) == AllMatches(dsts[..i], lang) + matches by {
        assert dsts[..i + 1][..i] == dsts[..i];
      }
      words, seen := AppendUnseen(words, seen, matches, AllMatches(dsts[..i], lang));
    }
    assert dsts[..|dsts|] == dsts;
  }
}
