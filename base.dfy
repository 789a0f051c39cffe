/** Shared vocabulary of the translation quality gate: languages, configuration,
    Python string primitives the core relies on, and the collaborators whose code
    is not part of this model, passed in as total function values. */
module Base {

  datatype Option<T> = None | Some(value: T)

  /** The languages the checks tell apart. Every other language of the
      application's enumeration is `Other`, identified by its code. */
  datatype Lang = ZH | EN | JA | KO | RU | AR | TH | Other(code: string)

  /** The category of an item (used only to pick placeholder-protection rules). */
  datatype TextType = TextType(name: string)

  /** Only `Translated` is ever written by the core. */
  datatype TranslationStatus = Untranslated | Translated

  /** The configuration fields the core reads. */
  datatype Config = Config(
    sourceLanguage: Lang,
    targetLanguage: Lang,
    textPreserveEnable: bool,
    glossaryEnable: bool,
    autoGlossaryEnable: bool)

  /** Collaborators whose code is not part of this model. Each is a pure,
      total function; the model promises nothing about what they compute. */
  datatype TextHelpers = TextHelpers(
    ruleFilter: string -> bool,                     // RuleFilter.filter(src)
    languageFilter: (string, Lang) -> bool,         // LanguageFilter.filter(src, lang)
    anyCjk: string -> bool,                         // TextHelper.CJK.any_cjk
    anyHiragana: string -> bool,                    // TextHelper.JA.any_hiragana
    anyKatakana: string -> bool,                    // TextHelper.JA.any_katakana
    anyHangeul: string -> bool,                     // TextHelper.KO.any_hangeul
    anyRu: string -> bool,                          // TextHelper.RU.any_ru
    anyAr: string -> bool,                          // TextHelper.AR.any_ar
    anyTh: string -> bool,                          // TextHelper.TH.any_th
    reSample: (bool, TextType) -> Option<string -> string>,
                                                    // get_re_sample(...), as `rule.sub("", ·)`
    caseFold: char -> char,                         // lower-casing used by the regex engine under IGNORECASE
    jaccard: (string, string) -> real,              // TextHelper.check_similarity_by_jaccard
    splitByPunctuation: string -> seq<string>)      // split_by_punctuation(s, split_by_space = True)

  /** Python's `str.isspace` for one character. */
  predicate IsSpace(c: char) {
    c == ' ' || '\t' <= c <= '\r' || '\U{1C}' <= c <= '\U{1F}' || c == '\U{85}' || c == '\U{A0}'
    || c == '\U{1680}' || '\U{2000}' <= c <= '\U{200A}' || c == '\U{2028}' || c == '\U{2029}'
    || c == '\U{202F}' || c == '\U{205F}' || c == '\U{3000}'
  }

  /** Python's `str.lstrip()`. */
  function TrimStart(s: string): string {
    if s != [] && IsSpace(s[0]) then TrimStart(s[1..]) else s
  }

  /** Python's `str.rstrip()`. */
  function TrimEnd(s: string): string {
    if s != [] && IsSpace(s[|s| - 1]) then TrimEnd(s[..|s| - 1]) else s
  }

  /** Python's `str.strip()`. */
  function Trim(s: string): string {
    TrimEnd(TrimStart(s))
  }

  /** `lstrip` drops exactly the leading whitespace: what it keeps is a suffix
      that does not start with whitespace, and what it drops is all whitespace. */
  lemma {:induction false} TrimStartSpec(s: string)
    ensures var r := TrimStart(s);
            |r| <= |s| && r == s[|s| - |r|..]
            && (forall i :: 0 <= i < |s| - |r| ==> IsSpace(s[i]))
            && (r == [] || !IsSpace(r[0]))
  {
    if s != [] && IsSpace(s[0]) {
      var t := s[1..];
      TrimStartSpec(t);
      var r := TrimStart(t);
      assert TrimStart(s) == r;
      assert t[|t| - |r|..] == s[|s| - |r|..];
      forall i | 0 <= i < |s| - |r| ensures IsSpace(s[i]) {
        if i > 0 {
          assert s[i] == t[i - 1];
        }
      }
    }
  }

  /** `rstrip` drops exactly the trailing whitespace. */
  lemma {:induction false} TrimEndSpec(s: string)
    ensures var r := TrimEnd(s);
            |r| <= |s| && r == s[..|r|]
            && (forall i :: |r| <= i < |s| ==> IsSpace(s[i]))
            && (r == [] || !IsSpace(r[|r| - 1]))
  {
    if s != [] && IsSpace(s[|s| - 1]) {
      var t := s[..|s| - 1];
      TrimEndSpec(t);
      var r := TrimEnd(t);
      assert TrimEnd(s) == r;
      assert t[..|r|] == s[..|r|];
      forall i | |r| <= i < |s| ensures IsSpace(s[i]) {
        if i < |t| {
          assert s[i] == t[i];
        }
      }
    }
  }

  /** A string strips to nothing exactly when it is all whitespace, and a
      non-empty stripped string neither starts nor ends with whitespace. */
  lemma TrimChars(s: string)
    ensures Trim(s) == [] <==> forall i :: 0 <= i < |s| ==> IsSpace(s[i])
    ensures Trim(s) != [] ==> !IsSpace(Trim(s)[0]) && !IsSpace(Trim(s)[|Trim(s)| - 1])
  {
    var l := TrimStart(s);
    TrimStartSpec(s);
    TrimEndSpec(l);
    if Trim(s) == [] {
      assert l == [];
    } else {
      assert Trim(s)[0] == l[0];
    }
  }

  /** `needle` occurs in `hay` starting at index `i`. */
  predicate OccursAt(hay: string, needle: string, i: nat) {
    i + |needle| <= |hay| && hay[i..i + |needle|] == needle
  }

  /** Python's `needle in hay` for strings. */
  predicate Contains(hay: string, needle: string) {
    exists i | 0 <= i <= |hay| - |needle| :: OccursAt(hay, needle, i)
  }

  /** The empty string is in every string, and every string is in itself. */
  lemma ContainsTrivial(s: string)
    ensures Contains(s, [])
    ensures Contains(s, s)
  {
    assert OccursAt(s, [], 0);
    assert OccursAt(s, s, 0);
  }

  /** ASCII upper case to lower case; every other character is kept. */
  function AsciiLowerChar(c: char): (r: char)
    ensures 'A' <= c <= 'Z' ==> 'a' <= r <= 'z'
    ensures !('A' <= c <= 'Z') ==> r == c
  {
    if 'A' <= c <= 'Z' then (c as int + 32) as char else c
  }

  function AsciiLower(s: string): (r: string)
    ensures |r| == |s|
    ensures forall i :: 0 <= i < |s| ==> r[i] == AsciiLowerChar(s[i])
  {
    seq(|s|, i requires 0 <= i < |s| => AsciiLowerChar(s[i]))
  }
}
