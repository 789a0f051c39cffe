/** The automatic glossary: candidate terms the decoder found are filtered,
    aligned, and appended to the shared glossary when their source term is new;
    the glossary is persisted at most once per 15-second window. */
module GlossaryMerge {
  import opened Base

  /** One glossary record. */
  datatype Entry = Entry(src: string, dst: string, info: string)

  /** One term the decoder found; a key missing from its dict reads as "". */
  datatype Candidate = Candidate(src: string, dst: string, info: string)

  /** Seconds that must pass between two persisted writes (`GLOSSARY_SAVE_INTERVAL`). */
  const GlossarySaveInterval: real := 15.0

  /** The shared glossary store and its debounce timestamp. */
  class GlossaryStore {
    var data: seq<Entry>
    var saveTime: real
    /** How often the glossary has been written back to the configuration. */
    ghost var persists: nat

    constructor (data: seq<Entry>, saveTime: real)
      ensures this.data == data && this.saveTime == saveTime && persists == 0
    {
      this.data := data;
      this.saveTime := saveTime;
      persists := 0;
    }
  }

  /** The source terms already in the glossary. */
  function Keys(data: seq<Entry>): set<string> {
    set e | e in data :: e.src
  }

  /** `any(x in info.lower() for x in ("男", "女", "male", "female"))`. Lower-casing
      only the ASCII letters decides this exactly: no other character lower-cases
      to an ASCII letter of "male", and 男 and 女 have no case. */
  predicate Gendered(info: string) {
    var l := AsciiLower(info);
    Contains(l, "男") || Contains(l, "女") || Contains(l, "male") || Contains(l, "female")
  }

  /** The term lists of a candidate: both sides split by punctuation, or the
      whole (stripped) strings as a single pair when the split lengths differ. */
  function Aligned(src: string, dst: string, split: string -> seq<string>): (seq<string>, seq<string>) {
    var ss, ds := split(src), split(dst);
    if |ss| != |ds| then ([src], [dst]) else (ss, ds)
  }

  /** One aligned pair: appended when both stripped sides are non-empty and
      differ, and the source term is not a key yet. */
  function Admit(data: seq<Entry>, s0: string, d0: string, info: string): seq<Entry> {
    var s, d := Trim(s0), Trim(d0);
    if s == d || s == [] || d == [] then data
    else if s in Keys(data) then data
    else data + [Entry(s, d, info)]
  }

  /** The pairs of `zip(srcs, dsts)`, in order. */
  function AdmitPairs(data: seq<Entry>, ss: seq<string>, ds: seq<string>, info: string): seq<Entry>
    decreases |ss|
  {
    if ss == [] || ds == [] then data
    else AdmitPairs(Admit(data, ss[0], ds[0], info), ss[1..], ds[1..], info)
  }

  /** One candidate: skipped unless its info names a gender. */
  function AdmitCandidate(data: seq<Entry>, c: Candidate, split: string -> seq<string>): seq<Entry> {
    var info := Trim(c.info);
    if !Gendered(info) then data
    else
      var pairs := Aligned(Trim(c.src), Trim(c.dst), split);
      AdmitPairs(data, pairs.0, pairs.1, info)
  }

  /** The glossary after merging all candidates, in order. */
  function MergeAll(data: seq<Entry>, cands: seq<Candidate>, split: string -> seq<string>): seq<Entry>
    decreases |cands|
  {
    if cands == [] then data
    else MergeAll(AdmitCandidate(data, cands[0], split), cands[1..], split)
  }

  // ---------------------------------------------------------------------------
  // Append-only.

  /** `added` is a valid extension of `data`: every entry has non-empty,
      different sides and a gendered info, its source term is new, and no two
      added entries share a source term. */
  predicate ValidAdditions(data: seq<Entry>, added: seq<Entry>) {
    (forall i :: 0 <= i < |added| ==>
       added[i].src != [] && added[i].dst != [] && added[i].src != added[i].dst
       && Gendered(added[i].info) && added[i].src !in Keys(data))
    && (forall i, j :: 0 <= i < j < |added| ==> added[i].src != added[j].src)
  }

  /** `after` is `before` with valid entries appended at the end. */
  predicate Grows(before: seq<Entry>, after: seq<Entry>) {
    before <= after && ValidAdditions(before, after[|before|..])
  }

  lemma KeysOfPrefix(a: seq<Entry>, b: seq<Entry>)
    requires a <= b
    ensures Keys(a) <= Keys(b)
  {
    forall k | k in Keys(a) ensures k in Keys(b) {
      var e :| e in a && e.src == k;
      var i :| 0 <= i < |a| && a[i] == e;
      assert b[i] == e;
    }
  }

  lemma KeysOfSnoc(a: seq<Entry>, e: Entry)
    ensures Keys(a + [e]) == Keys(a) + {e.src}
  {
    assert forall x :: x in a + [e] <==> x in a || x == e;
  }

  lemma {:induction false} GrowsTrans(a: seq<Entry>, b: seq<Entry>, c: seq<Entry>)
    requires Grows(a, b) && Grows(b, c)
    ensures Grows(a, c)
  {
    KeysOfPrefix(a, b);
    var ab, bc := b[|a|..], c[|b|..];
    assert c[|a|..] == ab + bc;
    forall i, j | 0 <= i < |ab| && 0 <= j < |bc| ensures ab[i].src != bc[j].src {
      assert b[|a| + i] == ab[i];
      assert ab[i].src in Keys(b);
    }
  }

  lemma AdmitGrows(data: seq<Entry>, s: string, d: string, info: string)
    requires Gendered(info)
    ensures Grows(data, Admit(data, s, d, info))
  {
    var r := Admit(data, s, d, info);
    assert r[|data|..] == [] || r[|data|..] == [Entry(Trim(s), Trim(d), info)];
  }

  lemma {:induction false} AdmitPairsGrows(data: seq<Entry>, ss: seq<string>, ds: seq<string>, info: string)
    requires Gendered(info)
    ensures Grows(data, AdmitPairs(data, ss, ds, info))
    decreases |ss|
  {
    if ss == [] || ds == [] {
      assert data[|data|..] == [];
    } else {
      var next := Admit(data, ss[0], ds[0], info);
      AdmitGrows(data, ss[0], ds[0], info);
      AdmitPairsGrows(next, ss[1..], ds[1..], info);
      GrowsTrans(data, next, AdmitPairs(data, ss, ds, info));
    }
  }

  lemma AdmitCandidateGrows(data: seq<Entry>, c: Candidate, split: string -> seq<string>)
    ensures Grows(data, AdmitCandidate(data, c, split))
  {
    var info := Trim(c.info);
    if !Gendered(info) {
      assert data[|data|..] == [];
    } else {
      var pairs := Aligned(Trim(c.src), Trim(c.dst), split);
      AdmitPairsGrows(data, pairs.0, pairs.1, info);
    }
  }

  /** `merge_glossary` only appends: existing entries stay as they are, and
      every appended entry has non-empty, different sides, a gendered info and
      a source term that was not a key before, and no two share a source term. */
  lemma {:induction false} MergeAllAppendsOnly(data: seq<Entry>, cands: seq<Candidate>, split: string -> seq<string>)
    ensures Grows(data, MergeAll(data, cands, split))
    decreases |cands|
  {
    if cands == [] {
      assert data[|data|..] == [];
    } else {
      var next := AdmitCandidate(data, cands[0], split);
      AdmitCandidateGrows(data, cands[0], split);
      MergeAllAppendsOnly(next, cands[1..], split);
      GrowsTrans(data, next, MergeAll(data, cands, split));
    }
  }

  // ---------------------------------------------------------------------------
  // Idempotence.

  /** Every pair `Admit` would append has its source term in `keys`. */
  predicate PairsCovered(keys: set<string>, ss: seq<string>, ds: seq<string>)
    decreases |ss|
  {
    ss == [] || ds == []
    || ((Trim(ss[0]) == Trim(ds[0]) || Trim(ss[0]) == [] || Trim(ds[0]) == [] || Trim(ss[0]) in keys)
        && PairsCovered(keys, ss[1..], ds[1..]))
  }

  predicate CandidateCovered(keys: set<string>, c: Candidate, split: string -> seq<string>) {
    var pairs := Aligned(Trim(c.src), Trim(c.dst), split);
    !Gendered(Trim(c.info)) || PairsCovered(keys, pairs.0, pairs.1)
  }

  predicate AllCovered(keys: set<string>, cands: seq<Candidate>, split: string -> seq<string>) {
    forall i :: 0 <= i < |cands| ==> CandidateCovered(keys, cands[i], split)
  }

  lemma {:induction false} PairsCoveredMono(keys: set<string>, keys': set<string>, ss: seq<string>, ds: seq<string>)
    requires keys <= keys' && PairsCovered(keys, ss, ds)
    ensures PairsCovered(keys', ss, ds)
    decreases |ss|
  {
    if ss != [] && ds != [] {
      PairsCoveredMono(keys, keys', ss[1..], ds[1..]);
    }
  }

  lemma {:induction false} AdmitPairsCovers(data: seq<Entry>, ss: seq<string>, ds: seq<string>, info: string)
    requires Gendered(info)
    ensures PairsCovered(Keys(AdmitPairs(data, ss, ds, info)), ss, ds)
    decreases |ss|
  {
    if ss != [] && ds != [] {
      var next := Admit(data, ss[0], ds[0], info);
      var r := AdmitPairs(data, ss, ds, info);
      AdmitPairsCovers(next, ss[1..], ds[1..], info);
      AdmitPairsGrows(next, ss[1..], ds[1..], info);
      KeysOfPrefix(next, r);
      var s, d := Trim(ss[0]), Trim(ds[0]);
      if !(s == d || s == [] || d == []) && s !in Keys(data) {
        KeysOfSnoc(data, Entry(s, d, info));
      }
    }
  }

  lemma {:induction false} AdmitPairsCovered(data: seq<Entry>, ss: seq<string>, ds: seq<string>, info: string)
    requires PairsCovered(Keys(data), ss, ds)
    ensures AdmitPairs(data, ss, ds, info) == data
    decreases |ss|
  {
    if ss != [] && ds != [] {
      AdmitPairsCovered(data, ss[1..], ds[1..], info);
    }
  }

  /** After a merge, every candidate's admissible pairs have their source term in the glossary. */
  lemma {:induction false} MergeAllCovers(data: seq<Entry>, cands: seq<Candidate>, split: string -> seq<string>)
    ensures AllCovered(Keys(MergeAll(data, cands, split)), cands, split)
    decreases |cands|
  {
    if cands != [] {
      var c := cands[0];
      var next := AdmitCandidate(data, c, split);
      var r := MergeAll(data, cands, split);
      MergeAllCovers(next, cands[1..], split);
      MergeAllAppendsOnly(next, cands[1..], split);
      KeysOfPrefix(next, r);
      var info := Trim(c.info);
      if Gendered(info) {
        var pairs := Aligned(Trim(c.src), Trim(c.dst), split);
        AdmitPairsCovers(data, pairs.0, pairs.1, info);
        PairsCoveredMono(Keys(next), Keys(r), pairs.0, pairs.1);
      }
      forall i | 0 <= i < |cands| ensures CandidateCovered(Keys(r), cands[i], split) {
        if i > 0 {
          assert cands[i] == cands[1..][i - 1];
        }
      }
    }
  }

  lemma {:induction false} MergeAllCovered(data: seq<Entry>, cands: seq<Candidate>, split: string -> seq<string>)
    requires AllCovered(Keys(data), cands, split)
    ensures MergeAll(data, cands, split) == data
    decreases |cands|
  {
    if cands != [] {
      var c := cands[0];
      if Gendered(Trim(c.info)) {
        var pairs := Aligned(Trim(c.src), Trim(c.dst), split);
        AdmitPairsCovered(data, pairs.0, pairs.1, Trim(c.info));
      }
      assert AllCovered(Keys(data), cands[1..], split) by {
        forall i | 0 <= i < |cands| - 1 ensures CandidateCovered(Keys(data), cands[1..][i], split) {
          assert cands[1..][i] == cands[i + 1];
        }
      }
      MergeAllCovered(data, cands[1..], split);
    }
  }

  /** Merging the same candidates a second time appends nothing. */
  lemma MergeAllIdempotent(data: seq<Entry>, cands: seq<Candidate>, split: string -> seq<string>)
    ensures MergeAll(MergeAll(data, cands, split), cands, split) == MergeAll(data, cands, split)
  {
    MergeAllCovers(data, cands, split);
    MergeAllCovered(MergeAll(data, cands, split), cands, split);
  }

  /** A candidate whose two sides split into different numbers of terms is
      taken whole, as one pair of stripped strings. */
  lemma UnevenSplitTakesWhole(data: seq<Entry>, c: Candidate, split: string -> seq<string>)
    requires Gendered(Trim(c.info))
    requires |split(Trim(c.src))| != |split(Trim(c.dst))|
    ensures AdmitCandidate(data, c, split) == Admit(data, Trim(c.src), Trim(c.dst), Trim(c.info))
  {
    var src, dst := Trim(c.src), Trim(c.dst);
    assert Aligned(src, dst, split) == ([src], [dst]);
    var once := Admit(data, src, dst, Trim(c.info));
    assert AdmitPairs(data, [src], [dst], Trim(c.info)) == AdmitPairs(once, [], [], Trim(c.info)) by {
      assert [src][1..] == [] && [dst][1..] == [];
    }
  }

  // ---------------------------------------------------------------------------
  // Debounced persistence.

  /** The merge writes the glossary back: both switches are on, something was
      appended, and more than the interval has passed since the last write. */
  predicate PersistDue(cfg: Config, changed: bool, lastSaveTime: real, now: real) {
    cfg.glossaryEnable && cfg.autoGlossaryEnable && changed && now - lastSaveTime > GlossarySaveInterval
  }

  /** The timestamp `merge_glossary` returns. */
  function NextSaveTime(cfg: Config, changed: bool, lastSaveTime: real, now: real): real {
    if PersistDue(cfg, changed, lastSaveTime, now) then now else lastSaveTime
  }

  /** Two merges at most the interval apart persist at most once: after a
      write at `now1`, a merge at `now2 <= now1 + 15` neither writes nor moves
      the timestamp. */
  lemma AtMostOneWritePerWindow(cfg: Config, changed1: bool, changed2: bool, last: real, now1: real, now2: real)
    requires now2 - now1 <= GlossarySaveInterval
    ensures var t1 := NextSaveTime(cfg, changed1, last, now1);
            PersistDue(cfg, changed1, last, now1) ==>
              !PersistDue(cfg, changed2, t1, now2) && NextSaveTime(cfg, changed2, t1, now2) == t1
  {
  }
}
