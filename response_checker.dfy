/** The response validator: classifies one decoded model response against the
    batch of source lines it answers, batch-level gates first, then a
    first-match-wins classifier per line. */
module ResponseChecker {
  import opened Base

  /** The error taxonomy. `NoError` is the source's `NONE`; the line-level
      kinds drop the source's `LINE_ERROR_` prefix. */
  datatype Error =
    | NoError
    | Unknown
    | FailData
    | FailLineCount
    | Kana
    | Hangeul
    | FakeReply
    | EmptyLine
    | Similarity
    | Degradation
    | SourceResidue

  /** The line-level kinds (the source's `LINE_ERROR` tuple). */
  predicate IsLineError(e: Error) {
    e.Kana? || e.Hangeul? || e.FakeReply? || e.EmptyLine? || e.Similarity? || e.Degradation? || e.SourceResidue?
  }

  /** A single-item batch whose item has been retried this often is accepted as is. */
  const RetryCountThreshold: int := 2

  /** Number of further copies the degradation pattern asks for (`\1{16,}`). */
  const DegradationCopies: nat := 16

  // ---------------------------------------------------------------------------
  // The degradation pattern `(.{1,3})\1{16,}`, searched with IGNORECASE.

  /** `a` and `b` are equal once every character is case-folded. */
  predicate FoldEq(a: string, b: string, fold: char -> char) {
    |a| == |b| && forall j :: 0 <= j < |a| ==> fold(a[j]) == fold(b[j])
  }

  /** How many consecutive case-insensitive copies of `unit` `s` starts with. */
  function CopiesAt(s: string, unit: string, fold: char -> char): (n: nat)
    requires unit != []
    ensures n <= |s|
    decreases |s|
  {
    if |unit| <= |s| && FoldEq(s[..|unit|], unit, fold)
    then 1 + CopiesAt(s[|unit|..], unit, fold)
    else 0
  }

  /** The pattern matches at index `i` with a group of `k` characters: the
      group holds no newline (`.`) and is followed by at least 16 copies. */
  predicate MatchAt(s: string, i: nat, k: nat, fold: char -> char) {
    1 <= k <= 3 && i + k <= |s| && '\n' !in s[i..i + k]
    && CopiesAt(s[i + k..], s[i..i + k], fold) >= DegradationCopies
  }

  /** `RE_DEGRADATION.search(s) != None`. */
  predicate Degrades(s: string, fold: char -> char) {
    exists i, k | 0 <= i < |s| && 1 <= k <= 3 :: MatchAt(s, i, k, fold)
  }

  /** `n` back-to-back copies of `unit`. */
  function Repeat(unit: string, n: nat): (r: string)
    ensures |r| == n * |unit|
  {
    if n == 0 then [] else unit + Repeat(unit, n - 1)
  }

  lemma {:induction false} CopiesOfRepeat(unit: string, n: nat, rest: string, fold: char -> char)
    requires unit != []
    ensures CopiesAt(Repeat(unit, n) + rest, unit, fold) >= n
  {
    if n > 0 {
      var s := Repeat(unit, n) + rest;
      assert s == unit + (Repeat(unit, n - 1) + rest);
      assert s[..|unit|] == unit;
      assert s[|unit|..] == Repeat(unit, n - 1) + rest;
      CopiesOfRepeat(unit, n - 1, rest, fold);
    }
  }

  /** Any 1-3 character unit without a newline, written 17 times in a row,
      anywhere in a string, makes the pattern match. */
  lemma {:induction false} SeventeenCopiesDegrade(pre: string, unit: string, post: string, fold: char -> char)
    requires 1 <= |unit| <= 3 && '\n' !in unit
    ensures Degrades(pre + Repeat(unit, DegradationCopies + 1) + post, fold)
  {
    var s := pre + Repeat(unit, DegradationCopies + 1) + post;
    var i, k := |pre|, |unit|;
    assert Repeat(unit, DegradationCopies + 1) == unit + Repeat(unit, DegradationCopies);
    assert s[i..i + k] == unit;
    assert s[i + k..] == Repeat(unit, DegradationCopies) + post;
    CopiesOfRepeat(unit, DegradationCopies, post, fold);
    assert MatchAt(s, i, k, fold);
  }

  /** A match needs at least 17 characters, so a shorter string never degrades. */
  lemma ShortNeverDegrades(s: string, fold: char -> char)
    requires |s| <= DegradationCopies
    ensures !Degrades(s, fold)
  {
  }

  // ---------------------------------------------------------------------------
  // Source-script residue.

  /** The languages for which a residue detector exists. */
  predicate HasScriptDetector(lang: Lang) {
    lang.ZH? || lang.JA? || lang.KO? || lang.RU? || lang.AR? || lang.TH?
  }

  /** `has_source_language_residue`: does `text` contain characters of the
      script of `lang`? Always false for a language without a detector. */
  function HasSourceLanguageResidue(text: string, lang: Lang, h: TextHelpers): (r: bool)
    ensures !HasScriptDetector(lang) ==> !r
    ensures lang == JA ==> (r <==> h.anyHiragana(text) || h.anyKatakana(text))
    ensures lang == ZH ==> (r <==> h.anyCjk(text))
    ensures lang == KO ==> (r <==> h.anyHangeul(text))
  {
    match lang
    case ZH => h.anyCjk(text)
    case JA => h.anyHiragana(text) || h.anyKatakana(text)
    case KO => h.anyHangeul(text)
    case RU => h.anyRu(text)
    case AR => h.anyAr(text)
    case TH => h.anyTh(text)
    case _ => false
  }

  // ---------------------------------------------------------------------------
  // One line.

  /** `s` with the placeholder/preserved spans removed, when a rule applies. */
  function Erase(s: string, textType: TextType, cfg: Config, h: TextHelpers): string {
    match h.reSample(cfg.textPreserveEnable, textType)
    case None => s
    case Some(sub) => sub(s)
  }

  predicate AnyKana(s: string, h: TextHelpers) {
    h.anyHiragana(s) || h.anyKatakana(s)
  }

  /** Python's `x > 0.80 == True`, a chained comparison: `x > 0.80 and 0.80 == True`,
      where `True` compares as `1`. */
  predicate JaccardClause(x: real) {
    x > 0.80 && 0.80 == 1.0
  }

  /** The chained comparison can never hold, whatever the similarity. */
  lemma JaccardClauseNeverHolds(x: real)
    ensures !JaccardClause(x)
  {
  }

  /** A source/destination pair (already stripped) gets past the empty-line,
      filter and degradation steps. */
  predicate ReachesScriptChecks(src: string, dst: string, cfg: Config, h: TextHelpers) {
    (src == [] || dst != [])
    && !h.ruleFilter(src)
    && !h.languageFilter(src, cfg.sourceLanguage)
    && !(!Degrades(src, h.caseFold) && Degrades(dst, h.caseFold))
  }

  /** After erasing, the pair gets past the kana, hangeul and residue steps. */
  predicate ReachesSimilarity(es: string, ed: string, cfg: Config, h: TextHelpers) {
    !(cfg.sourceLanguage == JA && AnyKana(ed, h))
    && !(cfg.sourceLanguage == KO && h.anyHangeul(ed))
    && !(cfg.sourceLanguage != JA && cfg.sourceLanguage != KO && HasSourceLanguageResidue(ed, cfg.sourceLanguage, h))
  }

  /** The verdict for one line pair, as the loop body of `check_lines` reaches it:
      the first matching rule wins. */
  function ClassifyLine(src0: string, dst0: string, textType: TextType, cfg: Config, h: TextHelpers): Error
  {
    var src, dst := Trim(src0), Trim(dst0);
    if src != [] && dst == [] then EmptyLine
    else if h.ruleFilter(src) then NoError
    else if h.languageFilter(src, cfg.sourceLanguage) then NoError
    else if !Degrades(src, h.caseFold) && Degrades(dst, h.caseFold) then Degradation
    else
      var es, ed := Erase(src, textType, cfg, h), Erase(dst, textType, cfg, h);
      if cfg.sourceLanguage == JA && AnyKana(ed, h) then Kana
      else if cfg.sourceLanguage == KO && h.anyHangeul(ed) then Hangeul
      else if cfg.sourceLanguage != JA && cfg.sourceLanguage != KO
              && HasSourceLanguageResidue(ed, cfg.sourceLanguage, h) then SourceResidue
      else if Contains(ed, es) || Contains(es, ed) || JaccardClause(h.jaccard(es, ed)) then
        if cfg.sourceLanguage == JA && cfg.targetLanguage == ZH then
          (if AnyKana(ed, h) then Similarity else NoError)
        else if cfg.sourceLanguage == KO && cfg.targetLanguage == ZH then
          (if h.anyHangeul(ed) then Similarity else NoError)
        else Similarity
      else NoError
  }

  /** Which verdict a line gets, outcome by outcome: each holds exactly under the
      conditions of its step in the chain. */
  lemma ClassifyLineOutcomes(src0: string, dst0: string, textType: TextType, cfg: Config, h: TextHelpers, r: Error)
    requires r == ClassifyLine(src0, dst0, textType, cfg, h)
    // only line-level verdicts or a pass come out of here
    ensures r == NoError || (IsLineError(r) && r != FakeReply)
    // empty line: decided before any filter is asked
    ensures r == EmptyLine <==> Trim(src0) != [] && Trim(dst0) == []
    // a source line either filter accepts passes
    ensures ((Trim(src0) == [] || Trim(dst0) != [])
             && (h.ruleFilter(Trim(src0)) || h.languageFilter(Trim(src0), cfg.sourceLanguage))) ==> r == NoError
    // degradation: the pattern is in the stripped destination but not in the stripped source
    ensures r == Degradation <==>
              (Trim(src0) == [] || Trim(dst0) != [])
              && !h.ruleFilter(Trim(src0)) && !h.languageFilter(Trim(src0), cfg.sourceLanguage)
              && !Degrades(Trim(src0), h.caseFold) && Degrades(Trim(dst0), h.caseFold)
    // script residue, judged on the erased destination
    ensures var ed := Erase(Trim(dst0), textType, cfg, h);
            && (r == Kana <==> ReachesScriptChecks(Trim(src0), Trim(dst0), cfg, h)
                               && cfg.sourceLanguage == JA && AnyKana(ed, h))
            && (r == Hangeul <==> ReachesScriptChecks(Trim(src0), Trim(dst0), cfg, h)
                                  && cfg.sourceLanguage == KO && h.anyHangeul(ed))
            && (r == SourceResidue <==> ReachesScriptChecks(Trim(src0), Trim(dst0), cfg, h)
                                        && cfg.sourceLanguage != JA && cfg.sourceLanguage != KO
                                        && HasSourceLanguageResidue(ed, cfg.sourceLanguage, h))
    // similarity comes from containment alone (either direction), never for JA->ZH or KO->ZH
    ensures var es, ed := Erase(Trim(src0), textType, cfg, h), Erase(Trim(dst0), textType, cfg, h);
            r == Similarity <==>
              ReachesScriptChecks(Trim(src0), Trim(dst0), cfg, h) && ReachesSimilarity(es, ed, cfg, h)
              && (Contains(ed, es) || Contains(es, ed))
              && !(cfg.targetLanguage == ZH && (cfg.sourceLanguage == JA || cfg.sourceLanguage == KO))
  {
  }

  /** An identical source and destination line that gets past the earlier steps
      is reported as `Similarity`, except for JA->ZH and KO->ZH. */
  lemma IdenticalLineIsSimilar(line: string, textType: TextType, cfg: Config, h: TextHelpers)
    requires ReachesScriptChecks(Trim(line), Trim(line), cfg, h)
    requires var e := Erase(Trim(line), textType, cfg, h); ReachesSimilarity(e, e, cfg, h)
    requires !(cfg.targetLanguage == ZH && (cfg.sourceLanguage == JA || cfg.sourceLanguage == KO))
    ensures ClassifyLine(line, line, textType, cfg, h) == Similarity
  {
    ContainsTrivial(Erase(Trim(line), textType, cfg, h));
  }

  // ---------------------------------------------------------------------------
  // All lines.

  function Min(a: int, b: int): int { if a <= b then a else b }

  /** What `check_lines` returns: one verdict per pair of `zip(srcs, dsts)`. */
  function LineChecks(srcs: seq<string>, dsts: seq<string>, textType: TextType, cfg: Config, h: TextHelpers): seq<Error> {
    seq(Min(|srcs|, |dsts|), i requires 0 <= i < Min(|srcs|, |dsts|) => ClassifyLine(srcs[i], dsts[i], textType, cfg, h))
  }

  /** One pass of the per-line loop of `check_lines`: the verdict for one
      source line and its translation, as `ClassifyLine` defines it. */
  method CheckLine(srcLine: string, dstLine: string, textType: TextType, cfg: Config, h: TextHelpers)
    returns (check: Error)
    ensures check == ClassifyLine(srcLine, dstLine, textType, cfg, h)
  {
    var src, dst := Trim(srcLine), Trim(dstLine);
    ghost var verdict := ClassifyLine(srcLine, dstLine, textType, cfg, h);

    if src != [] && dst == [] {
      assert verdict == EmptyLine;
      check := EmptyLine;
      return;
    }
    if h.ruleFilter(src) {
      assert verdict == NoError;
      check := NoError;
      return;
    }
    if h.languageFilter(src, cfg.sourceLanguage) {
      assert verdict == NoError;
      check := NoError;
      return;
    }
    if !Degrades(src, h.caseFold) && Degrades(dst, h.caseFold) {
      assert verdict == Degradation;
      check := Degradation;
      return;
    }

    var rule := h.reSample(cfg.textPreserveEnable, textType);
    if rule.Some? {
      src := rule.value(src);
      dst := rule.value(dst);
    }

    if cfg.sourceLanguage == JA && (h.anyHiragana(dst) || h.anyKatakana(dst)) {
      assert verdict == Kana;
      check := Kana;
      return;
    }
    if cfg.sourceLanguage == KO && h.anyHangeul(dst) {
      assert verdict == Hangeul;
      check := Hangeul;
      return;
    }
    if cfg.sourceLanguage != JA && cfg.sourceLanguage != KO {
      if HasSourceLanguageResidue(dst, cfg.sourceLanguage, h) {
        assert verdict == SourceResidue;
        check := SourceResidue;
        return;
      }
    }

    if Contains(dst, src) || Contains(src, dst) || JaccardClause(h.jaccard(src, dst)) {
      if cfg.sourceLanguage == JA && cfg.targetLanguage == ZH {
        if h.anyHiragana(dst) || h.anyKatakana(dst) {
          check := Similarity;
          return;
        }
      } else if cfg.sourceLanguage == KO && cfg.targetLanguage == ZH {
        if h.anyHangeul(dst) {
          check := Similarity;
          return;
        }
      } else {
        assert verdict == Similarity;
        check := Similarity;
        return;
      }
    }

    assert verdict == NoError;
    check := NoError;
  }

  /** `check_lines`: the source's loop, which accumulates one verdict per line
      and leaves each line at its first matching rule. */
  method CheckLines(srcs: seq<string>, dsts: seq<string>, textType: TextType, cfg: Config, h: TextHelpers)
    returns (checks: seq<Error>)
    ensures |checks| == Min(|srcs|, |dsts|)
    ensures forall i :: 0 <= i < |checks| ==> checks[i] == ClassifyLine(srcs[i], dsts[i], textType, cfg, h)
  {
    checks := [];
    for i := 0 to Min(|srcs|, |dsts|)
      invariant |checks| == i
      invariant forall j :: 0 <= j < i ==> checks[j] == ClassifyLine(srcs[j], dsts[j], textType, cfg, h)
    {
      var check := CheckLine(srcs[i], dsts[i], textType, cfg, h);
      checks := checks + [check];
    }
  }

  // ---------------------------------------------------------------------------
  // The batch.

  /** `len(dsts) == 0 or all(v == "" ...)`: the response carries no data. */
  predicate NoData(dsts: seq<string>) {
    |dsts| == 0 || forall i :: 0 <= i < |dsts| ==> dsts[i] == []
  }

  /** The single-item retry gate of `check`. */
  predicate RetryExhausted(itemCount: nat, firstRetryCount: int) {
    itemCount == 1 && firstRetryCount >= RetryCountThreshold
  }

  function Fill(e: Error, n: nat): (r: seq<Error>)
    ensures |r| == n && forall i :: 0 <= i < n ==> r[i] == e
  {
    seq(n, _ => e)
  }

  /** `check`: the batch gates in their order, then the per-line verdicts.
      `itemCount` and `firstRetryCount` are `len(self.items)` and the first
      item's retry count. */
  function Check(srcs: seq<string>, dsts: seq<string>, textType: TextType,
                 itemCount: nat, firstRetryCount: int, cfg: Config, h: TextHelpers): (r: seq<Error>)
    ensures |r| == |srcs|
    // no data: all FAIL_DATA, even for a single item retried twice already
    ensures NoData(dsts) ==> forall i :: 0 <= i < |r| ==> r[i] == FailData
    // otherwise a single item retried at least twice passes, whatever the line counts
    ensures !NoData(dsts) && RetryExhausted(itemCount, firstRetryCount) ==>
              forall i :: 0 <= i < |r| ==> r[i] == NoError
    // otherwise a line-count mismatch fails every line
    ensures !NoData(dsts) && !RetryExhausted(itemCount, firstRetryCount) && |srcs| != |dsts| ==>
              forall i :: 0 <= i < |r| ==> r[i] == FailLineCount
    // otherwise the verdicts of the line classifier, position by position
    ensures !NoData(dsts) && !RetryExhausted(itemCount, firstRetryCount) && |srcs| == |dsts| ==>
              r == LineChecks(srcs, dsts, textType, cfg, h)
  {
    if |dsts| == 0 || forall i :: 0 <= i < |dsts| ==> dsts[i] == [] then
      Fill(FailData, |srcs|)
    else if itemCount == 1 && firstRetryCount >= RetryCountThreshold then
      Fill(NoError, |srcs|)
    else if |srcs| != |dsts| then
      Fill(FailLineCount, |srcs|)
    else
      var checks := LineChecks(srcs, dsts, textType, cfg, h);
      if exists i :: 0 <= i < |checks| && checks[i] != NoError then checks
      else Fill(NoError, |srcs|)
  }

  /** Every verdict is `e`. */
  predicate AllAre(checks: seq<Error>, e: Error) {
    forall i :: 0 <= i < |checks| ==> checks[i] == e
  }

  /** Some line passed. */
  predicate AnyPass(checks: seq<Error>) {
    exists i :: 0 <= i < |checks| && checks[i] == NoError
  }

  /** The verdict lists `check` can produce: uniformly a batch-level failure,
      or each verdict a pass or a line error. */
  predicate CheckerShaped(r: seq<Error>) {
    AllAre(r, FailData) || AllAre(r, FailLineCount)
    || forall i :: 0 <= i < |r| ==> r[i] == NoError || IsLineError(r[i])
  }

  /** Every verdict `check` hands out is a pass, a batch-level failure or a
      line-level error, and the batch-level kinds come only uniformly. */
  lemma {:induction false} CheckVerdictKinds(srcs: seq<string>, dsts: seq<string>, textType: TextType,
                                             itemCount: nat, firstRetryCount: int, cfg: Config, h: TextHelpers)
    ensures CheckerShaped(Check(srcs, dsts, textType, itemCount, firstRetryCount, cfg, h))
  {
  }

  /** For JA->ZH and KO->ZH the `Similarity` branches cannot fire: a line that
      is contained either way and reaches that step passes. */
  lemma ContainedJaKoToZhPasses(src: string, dst: string, textType: TextType, cfg: Config, h: TextHelpers)
    requires cfg.targetLanguage == ZH && (cfg.sourceLanguage == JA || cfg.sourceLanguage == KO)
    requires ReachesScriptChecks(Trim(src), Trim(dst), cfg, h)
    requires var es, ed := Erase(Trim(src), textType, cfg, h), Erase(Trim(dst), textType, cfg, h);
             ReachesSimilarity(es, ed, cfg, h) && (Contains(ed, es) || Contains(es, ed))
    ensures ClassifyLine(src, dst, textType, cfg, h) == NoError
  {
  }
}
