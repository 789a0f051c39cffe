/** The retry orchestrator of one translation task: up to three attempts, each
    sending the batch, checking the decoded response, updating the retry count
    of a single-item batch, merging the automatic glossary and accepting the
    items whose lines passed (all of them on the last attempt). */
module Translator {
  import opened Base
  import opened ResponseChecker
  import opened ResidueWords
  import opened GlossaryMerge
  import opened LogSeverity

  /** Attempts `start` makes at most (`MAX_RETRY`). */
  const MaxAttempts: nat := 3

  /** The attempt index on which every item is accepted whatever the checks say. */
  const ForcedAttempt: nat := 2

  /** One cached text item; the task writes its translation, status and retry count. */
  class CacheItem {
    const src: string
    const textType: TextType
    var dst: string
    var firstNameDst: Option<string>
    var status: TranslationStatus
    var retryCount: int

    constructor (src: string, textType: TextType, retryCount: int)
      ensures this.src == src && this.textType == textType && this.retryCount == retryCount
      ensures dst == [] && firstNameDst == None && status == Untranslated
    {
      this.src := src;
      this.textType := textType;
      this.retryCount := retryCount;
      dst := [];
      firstNameDst := None;
      status := Untranslated;
    }
  }

  /** The mutable part of an item, as a value. */
  datatype ItemState = ItemState(dst: string, firstNameDst: Option<string>, status: TranslationStatus, retryCount: int)

  function StateOf(item: CacheItem): ItemState
    reads item
  {
    ItemState(item.dst, item.firstNameDst, item.status, item.retryCount)
  }

  /** How the prompt of an attempt is built: plain; strengthened, naming the
      source-script words left in the previous response; or sent with a
      lowered temperature. */
  datatype Strategy = Plain | Escalated(residueWords: seq<string>) | Cooled

  /** What the requester returns (the model's reasoning text is not modelled). */
  datatype Reply = Reply(skip: bool, result: string, inputTokens: nat, outputTokens: nat)

  /** What the response decoder returns: the translated lines and glossary candidates. */
  datatype Decoded = Decoded(dsts: seq<string>, glossary: seq<Candidate>)

  /** What `post_process` returns for one item: an optional speaker name and the text. */
  datatype PostProcessed = PostProcessed(name: Option<string>, dst: string)

  /** The services a task calls and whose code is not part of this model. */
  datatype Services = Services(
    send: (nat, Strategy) -> Reply,                  // prompt building and TaskRequester.request, per attempt
    decode: string -> Decoded,                       // ResponseDecoder.decode
    postProcess: (nat, seq<string>) -> PostProcessed) // processors[k].post_process

  /** The result dictionary of `request` and `start`. */
  datatype Outcome = Outcome(rowCount: nat, inputTokens: nat, outputTokens: nat)

  const NoOutcome := Outcome(0, 0, 0)

  /** One attempt, as recorded for the contracts: its index, the headline of
      its log table (none when it returned before logging), the checker's
      verdicts (none when it returned before checking), its result, and
      before and after it the items' states, the previous response's lines
      and the glossary store. */
  datatype Attempt = Attempt(index: nat, tier: Option<Tier>, checks: seq<Error>, outcome: Outcome,
                             before: seq<ItemState>, after: seq<ItemState>,
                             lastBefore: seq<string>, lastAfter: seq<string>,
                             storeBefore: StoreState, storeAfter: StoreState)

  /** The glossary store's entries, save time and write count, as a value. */
  datatype StoreState = StoreState(data: seq<Entry>, saveTime: real, persists: nat)

  /** The attempts of a run that checked a response. */
  function CheckedCount(run: seq<Attempt>): nat {
    if run == [] then 0
    else CheckedCount(run[..|run| - 1]) + (if run[|run| - 1].tier.Some? then 1 else 0)
  }

  /** The states of `xs`, in order. */
  ghost function StatesOf(xs: seq<CacheItem>): (r: seq<ItemState>)
    reads xs
    ensures |r| == |xs| && forall k :: 0 <= k < |xs| ==> r[k] == StateOf(xs[k])
  {
    if xs == [] then [] else StatesOf(xs[..|xs| - 1]) + [StateOf(xs[|xs| - 1])]
  }

  /** Two item states carry the same translation: text, speaker name and status. */
  predicate SameTranslation(a: ItemState, b: ItemState) {
    a.dst == b.dst && a.firstNameDst == b.firstNameDst && a.status == b.status
  }

  /** Item by item, the same translations. */
  predicate SameTranslations(a: seq<ItemState>, b: seq<ItemState>) {
    |a| == |b| && forall k :: 0 <= k < |a| ==> SameTranslation(a[k], b[k])
  }

  /** Item by item, each retry count of `b` is that of `a` plus `n`. */
  predicate RetriedBy(a: seq<ItemState>, b: seq<ItemState>, n: nat) {
    |a| == |b| && forall k :: 0 <= k < |a| ==> b[k].retryCount == a[k].retryCount + n
  }

  /** What `start` keeps about the attempts `run` made so far, which took the
      items from states `s0` to `s`, the glossary store from `g0` to `g` and
      the previous response's lines from `l0` to `l`: each attempt starts
      where the one before it left off; every attempt but the last leaves each
      translation as it was; with a single item, its retry count grows by one
      per checked attempt, otherwise not at all; the glossary only grows, and
      is written at most once per attempt. */
  predicate RunSoFar(s0: seq<ItemState>, g0: StoreState, l0: seq<string>, run: seq<Attempt>,
                     s: seq<ItemState>, g: StoreState, l: seq<string>, single: bool)
  {
    (if run == [] then s == s0 && g == g0 && l == l0
     else
       var last := run[|run| - 1];
       run[0].before == s0 && run[0].storeBefore == g0 && run[0].lastBefore == l0
       && last.after == s && last.storeAfter == g && last.lastAfter == l
       && SameTranslations(s0, last.before))
    && (forall i :: 0 <= i < |run| - 1 ==>
          run[i + 1].before == run[i].after && run[i + 1].storeBefore == run[i].storeAfter
          && run[i + 1].lastBefore == run[i].lastAfter && SameTranslations(run[i].before, run[i].after))
    && RetriedBy(s0, s, if single then CheckedCount(run) else 0)
    && Grows(g0.data, g.data) && g.persists <= g0.persists + |run|
  }

  /** One more attempt `a` after attempts that all updated no row keeps `RunSoFar`. */
  lemma RunStep(s0: seq<ItemState>, g0: StoreState, l0: seq<string>, run: seq<Attempt>, a: Attempt, single: bool)
    requires RunSoFar(s0, g0, l0, run, a.before, a.storeBefore, a.lastBefore, single)
    requires forall i :: 0 <= i < |run| ==> run[i].outcome.rowCount == 0
    requires SameTranslations(s0, a.before)
    requires a.outcome.rowCount == 0 ==> SameTranslations(a.before, a.after)
    requires RetriedBy(a.before, a.after, if a.tier.Some? && single then 1 else 0)
    requires Grows(a.storeBefore.data, a.storeAfter.data) && a.storeAfter.persists <= a.storeBefore.persists + 1
    ensures RunSoFar(s0, g0, l0, run + [a], a.after, a.storeAfter, a.lastAfter, single)
    ensures a.outcome.rowCount == 0 ==> SameTranslations(s0, a.after)
  {
    var run' := run + [a];
    assert run'[..|run|] == run;
    assert CheckedCount(run') == CheckedCount(run) + (if a.tier.Some? then 1 else 0);
    if run == [] {
      assert g0.data[|g0.data|..] == [];
    } else {
      var last := run[|run| - 1];
      assert SameTranslations(last.before, last.after) by {
        assert forall k :: 0 <= k < |s0| ==>
                 SameTranslation(s0[k], last.before[k]) && SameTranslation(s0[k], a.before[k]);
      }
      forall i | 0 <= i < |run'| - 1
        ensures run'[i + 1].before == run'[i].after && run'[i + 1].storeBefore == run'[i].storeAfter
                && run'[i + 1].lastBefore == run'[i].lastAfter && SameTranslations(run'[i].before, run'[i].after)
      {
        assert run'[i] == run[i];
      }
    }
    GrowsTrans(g0.data, a.storeBefore.data, a.storeAfter.data);
    RetriedByTrans(s0, a.before, a.after, if single then CheckedCount(run) else 0,
                   if a.tier.Some? && single then 1 else 0);
    if a.outcome.rowCount == 0 {
      SameTranslationsTrans(s0, a.before, a.after);
    }
  }

  lemma SameTranslationsTrans(a: seq<ItemState>, b: seq<ItemState>, c: seq<ItemState>)
    requires SameTranslations(a, b) && SameTranslations(b, c)
    ensures SameTranslations(a, c)
  {
  }

  lemma RetriedByTrans(a: seq<ItemState>, b: seq<ItemState>, c: seq<ItemState>, m: nat, n: nat)
    requires RetriedBy(a, b, m) && RetriedBy(b, c, n)
    ensures RetriedBy(a, c, m + n)
  {
  }

  // ---------------------------------------------------------------------------
  // The batch layout: each item's pre-processed lines, laid end to end.

  function Flatten(xs: seq<seq<string>>): seq<string> {
    if xs == [] then [] else Flatten(xs[..|xs| - 1]) + xs[|xs| - 1]
  }

  /** Index of item `k`'s first line in the flattened batch. */
  function Offset(xs: seq<seq<string>>, k: nat): nat
    requires k <= |xs|
  {
    |Flatten(xs[..k])|
  }

  lemma {:induction false} FlattenPrefix(xs: seq<seq<string>>, k: nat)
    requires k <= |xs|
    ensures Flatten(xs[..k]) <= Flatten(xs)
    decreases |xs|
  {
    if k < |xs| {
      var init := xs[..|xs| - 1];
      assert xs[..k] == init[..k];
      FlattenPrefix(init, k);
    } else {
      assert xs[..k] == xs;
    }
  }

  /** Item `k`'s lines start where item `k - 1`'s end, and fit in the batch. */
  lemma OffsetStep(xs: seq<seq<string>>, k: nat)
    requires k < |xs|
    ensures Offset(xs, k + 1) == Offset(xs, k) + |xs[k]|
    ensures Offset(xs, k + 1) <= |Flatten(xs)|
  {
    assert xs[..k + 1][..k] == xs[..k];
    FlattenPrefix(xs, k + 1);
  }

  /** The run of a padded batch-long list that belongs to item `k`. */
  function Slice<T>(padded: seq<T>, xs: seq<seq<string>>, k: nat): seq<T>
    requires k < |xs| && |padded| >= |Flatten(xs)|
  {
    OffsetStep(xs, k);
    padded[Offset(xs, k)..Offset(xs, k) + |xs[k]|]
  }

  lemma FlattenSnoc(xs: seq<seq<string>>, k: nat)
    requires k < |xs|
    ensures Flatten(xs[..k + 1]) == Flatten(xs[..k]) + xs[k]
  {
    assert xs[..k + 1][..k] == xs[..k];
  }

  lemma PrefixSlice<T>(p: seq<T>, f: seq<T>, a: nat, b: nat)
    requires p <= f && a <= |p| && b == |p|
    ensures f[a..b] == p[a..]
  {
  }

  /** Slicing the flattened batch gives every item back its own lines. */
  lemma SliceOfFlatten(xs: seq<seq<string>>, k: nat)
    requires k < |xs|
    ensures Slice(Flatten(xs), xs, k) == xs[k]
  {
    var p := Flatten(xs[..k + 1]);
    FlattenPrefix(xs, k + 1);
    FlattenSnoc(xs, k);
    OffsetStep(xs, k);
    PrefixSlice(p, Flatten(xs), Offset(xs, k), Offset(xs, k + 1));
  }

  /** Popping item `k`'s lines off the front of what is left after the
      items before it yields its slice and leaves what the next item starts from. */
  lemma PopSlice<T>(rest: seq<T>, padded: seq<T>, xs: seq<seq<string>>, k: nat)
    requires k < |xs| && |padded| >= |Flatten(xs)|
    requires Offset(xs, k) <= |padded| && rest == padded[Offset(xs, k)..]
    ensures |xs[k]| <= |rest| && rest[..|xs[k]|] == Slice(padded, xs, k)
    ensures Offset(xs, k + 1) <= |Flatten(xs)| && rest[|xs[k]|..] == padded[Offset(xs, k + 1)..]
  {
    OffsetStep(xs, k);
  }

  /** `xs` extended to length `n` with `fill` (never shortened). */
  function Pad<T>(xs: seq<T>, n: nat, fill: T): (r: seq<T>)
    ensures |r| >= n && |r| >= |xs| && r[..|xs|] == xs
    ensures forall i :: |xs| <= i < |r| ==> r[i] == fill
  {
    if n > |xs| then xs + seq(n - |xs|, _ => fill) else xs
  }

  // ---------------------------------------------------------------------------
  // Acceptance.

  /** Item `k` takes its translation: all its lines passed, or the acceptance is forced. */
  predicate Takes(checks: seq<Error>, xs: seq<seq<string>>, k: nat, force: bool)
    requires k < |xs| && |checks| >= |Flatten(xs)|
  {
    AllAre(Slice(checks, xs, k), NoError) || force
  }

  /** How many of the first `n` items take their translation. */
  function TakenCount(checks: seq<Error>, xs: seq<seq<string>>, force: bool, n: nat): nat
    requires n <= |xs| && |checks| >= |Flatten(xs)|
  {
    if n == 0 then 0
    else TakenCount(checks, xs, force, n - 1) + (if Takes(checks, xs, n - 1, force) then 1 else 0)
  }

  /** The row count of an attempt whose verdicts are `checks`. */
  function RowCount(checks: seq<Error>, xs: seq<seq<string>>, force: bool): nat {
    var padded := Pad(checks, |Flatten(xs)|, NoError);
    if AnyPass(checks) || force then TakenCount(padded, xs, force, |xs|) else 0
  }

  lemma {:induction false} TakenCountBounds(checks: seq<Error>, xs: seq<seq<string>>, force: bool, n: nat)
    requires n <= |xs| && |checks| >= |Flatten(xs)|
    ensures TakenCount(checks, xs, force, n) <= n
    ensures TakenCount(checks, xs, force, n) == n <==> forall k :: 0 <= k < n ==> Takes(checks, xs, k, force)
    ensures TakenCount(checks, xs, force, n) == 0 <==> forall k :: 0 <= k < n ==> !Takes(checks, xs, k, force)
  {
    if n > 0 {
      TakenCountBounds(checks, xs, force, n - 1);
    }
  }

  /** On the forced attempt every item is accepted. */
  lemma ForcedAcceptsAll(checks: seq<Error>, xs: seq<seq<string>>)
    ensures RowCount(checks, xs, true) == |xs|
  {
    TakenCountBounds(Pad(checks, |Flatten(xs)|, NoError), xs, true, |xs|);
  }

  /** Without a single passing line and without forcing, nothing is accepted. */
  lemma NoPassAcceptsNone(checks: seq<Error>, xs: seq<seq<string>>)
    requires !AnyPass(checks)
    ensures RowCount(checks, xs, false) == 0
  {
  }

  /** When every verdict passes, every item is accepted, even one without
      lines; when some line passes, an item without lines is accepted too. */
  lemma AllPassAcceptsAll(checks: seq<Error>, xs: seq<seq<string>>)
    requires AllAre(checks, NoError) && |checks| > 0
    ensures RowCount(checks, xs, false) == |xs|
  {
    var padded := Pad(checks, |Flatten(xs)|, NoError);
    assert AnyPass(checks) by { assert checks[0] == NoError; }
    forall k | 0 <= k < |xs| ensures Takes(padded, xs, k, false) {
      OffsetStep(xs, k);
      var s := Slice(padded, xs, k);
      forall i | 0 <= i < |s| ensures s[i] == NoError {
        var j := Offset(xs, k) + i;
        assert s[i] == padded[j];
        if j < |checks| {
          assert padded[..|checks|][j] == checks[j];
        }
      }
    }
    TakenCountBounds(padded, xs, false, |xs|);
  }

  /** The prompt strategy of an attempt; on attempt 1 the residue words come
      from the previous response, when there was one. */
  function StrategyFor(attempt: nat, lastDsts: seq<string>, lang: Lang): Strategy {
    if attempt == 1 then Escalated(if lastDsts != [] then ResidueOf(lastDsts, lang) else [])
    else if attempt == 2 then Cooled
    else Plain
  }

  /** The state of an item after it takes its translation. */
  function Accept(s: ItemState, pp: PostProcessed): ItemState {
    ItemState(pp.dst, if pp.name.Some? then pp.name else s.firstNameDst, Translated, s.retryCount)
  }

  /** The retry count update of a checked attempt: a single-item batch's
      item counts one more retry, whatever its verdicts. */
  function Retried(s: ItemState, itemCount: nat): ItemState {
    if itemCount == 1 then s.(retryCount := s.retryCount + 1) else s
  }

  /** The state of item `k` once the acceptance step of an attempt with these
      verdicts and lines is over. */
  function Settled(s: ItemState, k: nat, checks: seq<Error>, dsts: seq<string>,
                   xs: seq<seq<string>>, force: bool, post: (nat, seq<string>) -> PostProcessed): ItemState
    requires k < |xs|
  {
    var n := |Flatten(xs)|;
    if (AnyPass(checks) || force) && Takes(Pad(checks, n, NoError), xs, k, force)
    then Accept(s, post(k, Slice(Pad(dsts, n, ""), xs, k)))
    else s
  }

  /** On every checked attempt a single-item batch's retry count grows by one
      and a larger batch's stays, whatever the verdicts and whether the item
      was accepted. */
  lemma RetryCountOfCheckedAttempt(s: ItemState, itemCount: nat, k: nat, checks: seq<Error>, dsts: seq<string>,
                                   xs: seq<seq<string>>, force: bool, post: (nat, seq<string>) -> PostProcessed)
    requires k < |xs|
    ensures Settled(Retried(s, itemCount), k, checks, dsts, xs, force, post).retryCount
            == s.retryCount + (if itemCount == 1 then 1 else 0)
  {
  }

  /** A single item that has already been retried twice is accepted as soon
      as the response carries data: the checker passes every line. */
  lemma ExhaustedItemAccepted(xs: seq<seq<string>>, dsts: seq<string>, textType: TextType,
                              retryCount: int, cfg: Config, h: TextHelpers, force: bool)
    requires |xs| == 1 && xs[0] != [] && !NoData(dsts) && retryCount >= RetryCountThreshold
    ensures RowCount(Check(Flatten(xs), dsts, textType, 1, retryCount, cfg, h), xs, force) == 1
  {
    assert Flatten(xs) == xs[0] by {
      assert xs[..0] == [];
    }
    var checks := Check(Flatten(xs), dsts, textType, 1, retryCount, cfg, h);
    if force {
      ForcedAcceptsAll(checks, xs);
    } else {
      AllPassAcceptsAll(checks, xs);
    }
  }

  /** An attempt that updates no row leaves every item as it was. */
  lemma NoRowsKeepsItem(s: ItemState, k: nat, checks: seq<Error>, dsts: seq<string>,
                        xs: seq<seq<string>>, force: bool, post: (nat, seq<string>) -> PostProcessed)
    requires k < |xs| && RowCount(checks, xs, force) == 0
    ensures Settled(s, k, checks, dsts, xs, force, post) == s
  {
    if AnyPass(checks) || force {
      TakenCountBounds(Pad(checks, |Flatten(xs)|, NoError), xs, force, |xs|);
    }
  }

  /** The state of an item in a batch without lines: its own text, translated. */
  function KeptAsIs(s: ItemState, src: string): ItemState {
    s.(dst := src, status := Translated)
  }

  /** The writes of an accepted item: its translation, its speaker name when
      post-processing found one, and its status. */
  method SetTranslation(item: CacheItem, pp: PostProcessed)
    modifies item
    ensures StateOf(item) == Accept(old(StateOf(item)), pp)
  {
    item.dst := pp.dst;
    if pp.name.Some? {
      item.firstNameDst := pp.name;
    }
    item.status := Translated;
  }

  /** One translation task over a batch of items. */
  class TranslatorTask {
    const items: seq<CacheItem>
    /** `processor.srcs` of each item after pre-processing. */
    const sources: seq<seq<string>>
    const config: Config
    const helpers: TextHelpers
    const services: Services
    /** The shared glossary and its last save time. */
    const store: GlossaryStore
    /** The previous response's lines, for the residue words of attempt 1. */
    var lastDsts: seq<string>

    ghost predicate Valid()
      reads this
    {
      |sources| == |items| && forall i, j :: 0 <= i < j < |items| ==> items[i] != items[j]
    }

    constructor (items: seq<CacheItem>, sources: seq<seq<string>>, config: Config,
                 helpers: TextHelpers, services: Services, store: GlossaryStore)
      requires |sources| == |items| && forall i, j :: 0 <= i < j < |items| ==> items[i] != items[j]
      ensures Valid()
      ensures this.items == items && this.sources == sources && this.config == config
      ensures this.helpers == helpers && this.services == services && this.store == store
      ensures lastDsts == []
    {
      this.items := items;
      this.sources := sources;
      this.config := config;
      this.helpers := helpers;
      this.services := services;
      this.store := store;
      lastDsts := [];
    }

    /** The states of the task's items, in order. */
    ghost function States(): (r: seq<ItemState>)
      reads items
      ensures |r| == |items| && forall k :: 0 <= k < |items| ==> r[k] == StateOf(items[k])
    {
      StatesOf(items)
    }

    /** `start`: attempts 0, 1 and 2 in turn, returning the first result that
        updated a row. `run` records the attempts made. A zero result means
        the forced last attempt returned before checking, that is, its request
        was skipped. */
    method Start(clock: nat -> real) returns (result: Outcome, ghost run: seq<Attempt>)
      requires Valid()
      modifies this, store, items
      ensures Valid()
      ensures 1 <= |run| <= MaxAttempts
      ensures var last := run[|run| - 1];
              result == (if last.outcome.rowCount > 0 then last.outcome else NoOutcome)
      ensures result.rowCount == 0 ==> |run| == MaxAttempts && (|items| == 0 || run[|run| - 1].tier == None)
      // each attempt does what `request` does, and the run takes the items,
      // the glossary store and the previous response from where they were
      // to where they are
      ensures Ran(clock, old(States()), old(StoreOf()), old(lastDsts), run, States(), StoreOf(), lastDsts)
    {
      ghost var states0, store0, last0 := States(), StoreOf(), lastDsts;
      run := [];
      var attempt := 0;
      while attempt < MaxAttempts
        invariant attempt <= MaxAttempts && Valid() && |run| == attempt
        invariant Ran(clock, states0, store0, last0, run, States(), StoreOf(), lastDsts)
        invariant run != [] ==> run[|run| - 1].outcome.rowCount == 0
        invariant attempt == MaxAttempts && |items| > 0 ==> run[|run| - 1].tier == None
      {
        ghost var a;
        result, a := Turn(attempt, clock, states0, store0, last0, run);
        run := run + [a];
        assert run[|run| - 1] == a;
        if result.rowCount > 0 {
          return;
        }
        attempt := attempt + 1;
      }
      result := NoOutcome;
    }

    /** The attempts `run` of `start`, number `i` made at time `clock(i)`:
        each does what `request` does; each but the last updates no row; and
        together they take the items from `s0` to `s`, the glossary store from
        `g0` to `g` and the previous response from `l0` to `l` as `RunSoFar`
        says, changing no translation until one updates a row. */
    ghost predicate Ran(clock: nat -> real, s0: seq<ItemState>, g0: StoreState, l0: seq<string>,
                        run: seq<Attempt>, s: seq<ItemState>, g: StoreState, l: seq<string>)
    {
      (forall i :: 0 <= i < |run| ==> Performed(i, clock(i), run[i]))
      && (forall i :: 0 <= i < |run| - 1 ==> run[i].outcome.rowCount == 0)
      && RunSoFar(s0, g0, l0, run, s, g, l, |items| == 1)
      && (run == [] || run[|run| - 1].outcome.rowCount == 0 ==> SameTranslations(s0, s))
    }

    /** After a run the items and the glossary store are where its last
        attempt left them: each item settled by that attempt's verdicts and
        lines, or, in a batch without lines, its own translation. */
    lemma RanEndsWithLast(clock: nat -> real, s0: seq<ItemState>, g0: StoreState, l0: seq<string>,
                          run: seq<Attempt>, s: seq<ItemState>, g: StoreState, l: seq<string>)
      requires Ran(clock, s0, g0, l0, run, s, g, l) && run != []
      ensures s == run[|run| - 1].after && g == run[|run| - 1].storeAfter && l == run[|run| - 1].lastAfter
      ensures Ended(run[|run| - 1])
    {
      PerformedFacts(|run| - 1, clock(|run| - 1), run[|run| - 1]);
    }

    /** A run whose last attempt updated rows leaves some item translated
        (for a single-item task, that item). */
    lemma RowsMeanTranslated(clock: nat -> real, s0: seq<ItemState>, g0: StoreState, l0: seq<string>,
                             run: seq<Attempt>, s: seq<ItemState>, g: StoreState, l: seq<string>)
      requires Ran(clock, s0, g0, l0, run, s, g, l) && run != [] && run[|run| - 1].outcome.rowCount > 0
      ensures exists k :: 0 <= k < |s| && s[k].status == Translated
    {
      var i := |run| - 1;
      var a := run[i];
      RanEndsWithLast(clock, s0, g0, l0, run, s, g, l);
      assert Performed(i, clock(i), a);
      if Flatten(sources) == [] {
        assert s[0] == KeptAsIs(a.before[0], items[0].src);
      } else {
        var force := i == ForcedAttempt;
        var padded := Pad(a.checks, |Flatten(sources)|, NoError);
        assert RowCount(a.checks, sources, force) > 0;
        TakenCountBounds(padded, sources, force, |sources|);
        var k :| 0 <= k < |sources| && Takes(padded, sources, k, force);
        assert s[k] == Settled(Retried(a.before[k], |items|), k, a.checks, a.lastAfter, sources, force,
                               services.postProcess);
      }
    }

    /** One turn of `start`'s loop: attempt `attempt` after the attempts `run`,
        none of which updated a row. */
    method Turn(attempt: nat, clock: nat -> real, ghost s0: seq<ItemState>, ghost g0: StoreState,
                ghost l0: seq<string>, ghost run: seq<Attempt>)
      returns (result: Outcome, ghost a: Attempt)
      requires Valid() && |run| == attempt
      requires Ran(clock, s0, g0, l0, run, States(), StoreOf(), lastDsts)
      requires run != [] ==> run[|run| - 1].outcome.rowCount == 0
      modifies this, store, items
      ensures Valid() && a.outcome == result
      ensures attempt == ForcedAttempt && |items| > 0 && result.rowCount == 0 ==> a.tier == None
      ensures Ran(clock, s0, g0, l0, run + [a], States(), StoreOf(), lastDsts)
    {
      result, a := Request(attempt, clock(attempt));
      PerformedFacts(attempt, clock(attempt), a);
      PerformedAppend(clock, run, a);
      RanStep(clock, s0, g0, l0, run, a);
    }

    /** An attempt `a` at the next index after attempts that all updated no
        row, with the effects every attempt has (see `PerformedFacts`),
        extends `Ran` by one. */
    lemma RanStep(clock: nat -> real, s0: seq<ItemState>, g0: StoreState, l0: seq<string>,
                  run: seq<Attempt>, a: Attempt)
      requires Ran(clock, s0, g0, l0, run, a.before, a.storeBefore, a.lastBefore)
      requires run != [] ==> run[|run| - 1].outcome.rowCount == 0
      requires forall i :: 0 <= i < |run| + 1 ==> Performed(i, clock(i), (run + [a])[i])
      requires |a.before| == |items|
      requires a.outcome.rowCount == 0 ==> SameTranslations(a.before, a.after)
      requires RetriedBy(a.before, a.after, if a.tier.Some? && |items| == 1 then 1 else 0)
      requires Grows(a.storeBefore.data, a.storeAfter.data) && a.storeAfter.persists <= a.storeBefore.persists + 1
      ensures Ran(clock, s0, g0, l0, run + [a], a.after, a.storeAfter, a.lastAfter)
    {
      RunStep(s0, g0, l0, run, a, |items| == 1);
      assert forall i :: 0 <= i < |run| ==> (run + [a])[i] == run[i];
      assert (run + [a])[|run|] == a;
    }

    /** Appending an attempt made at the next index keeps every attempt of the
        run as `Performed` says. */
    lemma PerformedAppend(clock: nat -> real, run: seq<Attempt>, a: Attempt)
      requires forall i :: 0 <= i < |run| ==> Performed(i, clock(i), run[i])
      requires Performed(|run|, clock(|run|), a)
      ensures forall i :: 0 <= i < |run| + 1 ==> Performed(i, clock(i), (run + [a])[i])
    {
      assert forall i :: 0 <= i < |run| ==> (run + [a])[i] == run[i];
    }

    /** `request`: one attempt, as `Performed` specifies it; `a` records it. */
    method Request(attempt: nat, now: real) returns (outcome: Outcome, ghost a: Attempt)
      requires Valid()
      modifies this, store, items
      ensures Valid()
      ensures a.outcome == outcome && a.before == old(States()) && a.after == States()
      ensures a.lastBefore == old(lastDsts) && a.lastAfter == lastDsts
      ensures a.storeBefore == old(StoreOf()) && a.storeAfter == StoreOf()
      ensures Performed(attempt, now, a)
    {
      ghost var before, last0, store0 := States(), lastDsts, StoreOf();
      var srcs := FlattenSources();
      if |srcs| == 0 {
        KeepSources();
        outcome := Outcome(|items|, 0, 0);
        a := Attempt(attempt, None, [], outcome, before, States(), last0, lastDsts, store0, StoreOf());
        return;
      }
      assert |items| > 0;

      var strategy := ChooseStrategy(attempt);
      var reply := services.send(attempt, strategy);
      if reply.skip {
        outcome := NoOutcome;
        a := Attempt(attempt, None, [], outcome, before, States(), last0, lastDsts, store0, StoreOf());
        return;
      }

      outcome, a := Respond(attempt, srcs, reply, now);
    }

    /** The rest of `request` once a reply that was not skipped came back:
        decode it, keep its lines, check them, count the retry and accept. */
    method Respond(attempt: nat, srcs: seq<string>, reply: Reply, now: real) returns (outcome: Outcome, ghost a: Attempt)
      requires Valid() && |items| > 0 && srcs == Flatten(sources)
      modifies this, store, items
      ensures Valid()
      ensures a.outcome == outcome && a.before == old(States()) && a.after == States()
      ensures a.lastBefore == old(lastDsts) && a.lastAfter == lastDsts
      ensures a.storeBefore == old(StoreOf()) && a.storeAfter == StoreOf()
      ensures Responded(attempt, now, reply, a)
    {
      ghost var before, last0, store0 := States(), lastDsts, StoreOf();
      var decoded := services.decode(reply.result);
      lastDsts := decoded.dsts;
      var checks := Check(srcs, decoded.dsts, items[0].textType, |items|, items[0].retryCount, config, helpers);
      CountRetry(checks);
      ghost var counted := States();
      assert forall k :: 0 <= k < |items| ==> counted[k] == Retried(before[k], |items|);
      var force := attempt == ForcedAttempt;
      var updated := AcceptResponse(decoded, checks, force, now);
      ghost var after := States();
      assert forall k :: 0 <= k < |items| ==>
               after[k] == Settled(counted[k], k, checks, decoded.dsts, sources, force, services.postProcess);
      if updated > 0 {
        outcome := Outcome(updated, reply.inputTokens, reply.outputTokens);
      } else {
        outcome := NoOutcome;
      }
      a := Attempt(attempt, Some(ChooseTier(checks)), checks, outcome, before, after, last0, lastDsts, store0, StoreOf());
    }

    /** The glossary store, as a value. */
    ghost function StoreOf(): StoreState
      reads store
    {
      StoreState(store.data, store.saveTime, store.persists)
    }

    /** What attempt number `attempt`, made at time `now`, does, on the values
        `a` records. */
    ghost predicate Performed(attempt: nat, now: real, a: Attempt)
    {
      |sources| == |items| && a.index == attempt && |a.before| == |items| && |a.after| == |items|
      // no lines to translate: every item is its own translation
      && (Flatten(sources) == [] ==>
            a.outcome == Outcome(|items|, 0, 0) && a.tier == None
            && a.lastAfter == a.lastBefore && a.storeAfter == a.storeBefore
            && forall k :: 0 <= k < |items| ==> a.after[k] == KeptAsIs(a.before[k], items[k].src))
      // a skipped request changes nothing
      && (Flatten(sources) != [] && Sent(attempt, a.lastBefore).skip ==>
            a.outcome == NoOutcome && a.tier == None
            && a.lastAfter == a.lastBefore && a.storeAfter == a.storeBefore && a.after == a.before)
      // otherwise the response is checked, counted and accepted
      && (Flatten(sources) != [] && !Sent(attempt, a.lastBefore).skip ==>
            Responded(attempt, now, Sent(attempt, a.lastBefore), a))
    }

    /** What an attempt does with a reply that was not skipped: its decoded
        lines become the previous response, the items are counted and settled
        by the checker's verdicts, and the glossary is merged and saved when
        some line passed. */
    ghost predicate Responded(attempt: nat, now: real, reply: Reply, a: Attempt)
    {
      |items| > 0 && |sources| == |items| && |a.before| == |items| && |a.after| == |items|
      && a.index == attempt
      && var decoded := services.decode(reply.result);
         var checks := Check(Flatten(sources), decoded.dsts, items[0].textType, |items|,
                             a.before[0].retryCount, config, helpers);
         var force := attempt == ForcedAttempt;
         var rows := RowCount(checks, sources, force);
         var g0, g1 := a.storeBefore, a.storeAfter;
         a.lastAfter == decoded.dsts
         && a.tier == Some(ChooseTier(checks)) && a.checks == checks
         && a.outcome == (if rows > 0 then Outcome(rows, reply.inputTokens, reply.outputTokens) else NoOutcome)
         && (forall k :: 0 <= k < |items| ==>
               a.after[k] == Settled(Retried(a.before[k], |items|), k, a.checks,
                                     a.lastAfter, sources, force, services.postProcess))
         && GlossaryAfter(checks, decoded.glossary, g0.data, g1.data)
         && g1.saveTime == (if AnyPass(checks)
                            then NextSaveTime(config, |g1.data| > |g0.data|, g0.saveTime, now)
                            else g0.saveTime)
         && g1.persists == g0.persists
                           + (if AnyPass(checks) && PersistDue(config, |g1.data| > |g0.data|, g0.saveTime, now)
                              then 1 else 0)
    }

    /** Where attempt `a` left the items: in a batch without lines each item is
        its own translation; after a checked response each item is counted
        and settled by the recorded verdicts and lines; otherwise nothing
        changed. */
    ghost predicate Ended(a: Attempt)
    {
      |sources| == |items| && |a.before| == |items| && |a.after| == |items|
      && (Flatten(sources) == [] ==>
            forall k :: 0 <= k < |items| ==> a.after[k] == KeptAsIs(a.before[k], items[k].src))
      && (Flatten(sources) != [] && a.tier.Some? ==>
            forall k :: 0 <= k < |items| ==>
              a.after[k] == Settled(Retried(a.before[k], |items|), k, a.checks, a.lastAfter,
                                    sources, a.index == ForcedAttempt, services.postProcess))
      && (Flatten(sources) != [] && a.tier == None ==> a.after == a.before)
    }

    /** Every attempt: one that updates no row leaves every translation as it
        was; a checked one counts one retry of a single item and none of a
        larger batch; the glossary only grows and is written at most once; the
        forced attempt accepts every item unless its request was skipped. */
    lemma PerformedFacts(attempt: nat, now: real, a: Attempt)
      requires Performed(attempt, now, a)
      ensures a.index == attempt && |a.before| == |items| && Ended(a)
      ensures a.outcome.rowCount == 0 ==> SameTranslations(a.before, a.after)
      ensures RetriedBy(a.before, a.after, if a.tier.Some? && |items| == 1 then 1 else 0)
      ensures Grows(a.storeBefore.data, a.storeAfter.data) && a.storeAfter.persists <= a.storeBefore.persists + 1
      ensures attempt == ForcedAttempt && a.tier.Some? ==> a.outcome.rowCount == |items|
    {
      var g0 := a.storeBefore;
      if Flatten(sources) == [] || Sent(attempt, a.lastBefore).skip {
        assert g0.data[|g0.data|..] == [];
      } else {
        var reply := Sent(attempt, a.lastBefore);
        var decoded := services.decode(reply.result);
        var checks := Check(Flatten(sources), decoded.dsts, items[0].textType, |items|,
                            a.before[0].retryCount, config, helpers);
        var force := attempt == ForcedAttempt;
        if AnyPass(checks) && config.glossaryEnable && config.autoGlossaryEnable {
          MergeAllAppendsOnly(g0.data, decoded.glossary, helpers.splitByPunctuation);
        } else {
          assert g0.data[|g0.data|..] == [];
        }
        if RowCount(checks, sources, force) == 0 {
          forall k | 0 <= k < |items| ensures SameTranslation(a.before[k], a.after[k]) {
            NoRowsKeepsItem(Retried(a.before[k], |items|), k, checks, decoded.dsts, sources, force, services.postProcess);
          }
        }
        if force {
          ForcedAcceptsAll(checks, sources);
        }
      }
    }

    /** The reply the requester gives for an attempt, after a previous response `lastDsts`. */
    function Sent(attempt: nat, lastDsts: seq<string>): Reply {
      services.send(attempt, StrategyFor(attempt, lastDsts, config.sourceLanguage))
    }

    /** The glossary after an attempt with these verdicts: merged with the
        candidates when some line passed and both glossary switches are on. */
    predicate GlossaryAfter(checks: seq<Error>, glossary: seq<Candidate>, before: seq<Entry>, after: seq<Entry>) {
      after == (if AnyPass(checks) && config.glossaryEnable && config.autoGlossaryEnable
                then MergeAll(before, glossary, helpers.splitByPunctuation)
                else before)
    }

    /** The empty-batch shortcut of `request`: each item becomes its own translation. */
    method KeepSources()
      requires Valid()
      modifies items
      ensures forall k :: 0 <= k < |items| ==> StateOf(items[k]) == KeptAsIs(old(StateOf(items[k])), items[k].src)
    {
      for k := 0 to |items|
        invariant forall j :: 0 <= j < k ==> StateOf(items[j]) == KeptAsIs(old(StateOf(items[j])), items[j].src)
        invariant forall j :: k <= j < |items| ==> StateOf(items[j]) == old(StateOf(items[j]))
      {
        items[k].dst := items[k].src;
        items[k].status := Translated;
      }
    }

    /** The prompt strategy branch of `request`. */
    method ChooseStrategy(attempt: nat) returns (strategy: Strategy)
      ensures strategy == StrategyFor(attempt, lastDsts, config.sourceLanguage)
    {
      strategy := Plain;
      if attempt == 1 {
        var residue: seq<string> := [];
        if lastDsts != [] {
          residue := ExtractResidueWords(lastDsts, config.sourceLanguage);
        }
        strategy := Escalated(residue);
      } else if attempt == 2 {
        strategy := Cooled;
      }
    }

    /** The retry count update of `request`. The failure test compares a bool
        with `None`, which never holds equal, so only the item count decides. */
    method CountRetry(checks: seq<Error>)
      requires Valid()
      modifies items
      ensures forall k :: 0 <= k < |items| ==> StateOf(items[k]) == Retried(old(StateOf(items[k])), |items|)
    {
      var anyFailed := exists i :: 0 <= i < |checks| && checks[i] != NoError;
      if Some(anyFailed) != None && |items| == 1 {
        items[0].retryCount := items[0].retryCount + 1;
      }
    }

    /** The acceptance step of `request`: when some line passed, or on the
        forced attempt, merges the glossary (only when some line passed), pads
        the lines and verdicts to the batch length and lets each item take its
        slice. */
    method AcceptResponse(decoded: Decoded, checks: seq<Error>, force: bool, now: real) returns (updated: nat)
      requires Valid()
      modifies store, items
      ensures updated == RowCount(checks, sources, force)
      ensures forall k :: 0 <= k < |items| ==>
                StateOf(items[k]) == Settled(old(StateOf(items[k])), k, checks, decoded.dsts, sources, force, services.postProcess)
      ensures GlossaryAfter(checks, decoded.glossary, old(store.data), store.data)
      ensures store.saveTime == (if AnyPass(checks)
                                 then NextSaveTime(config, |store.data| > |old(store.data)|, old(store.saveTime), now)
                                 else old(store.saveTime))
      ensures store.persists == old(store.persists)
                                + (if AnyPass(checks) && PersistDue(config, |store.data| > |old(store.data)|, old(store.saveTime), now)
                                   then 1 else 0)
    {
      var n := |Flatten(sources)|;
      updated := 0;
      var anyPassed := exists i :: 0 <= i < |checks| && checks[i] == NoError;
      if anyPassed || force {
        if anyPassed {
          store.saveTime := MergeGlossary(decoded.glossary, store.saveTime, now);
        }
        var dstsCp := decoded.dsts;
        if n > |dstsCp| {
          dstsCp := dstsCp + seq(n - |dstsCp|, _ => "");
        }
        var checksCp := checks;
        if n > |checksCp| {
          checksCp := checksCp + Fill(NoError, n - |checksCp|);
        }
        assert dstsCp == Pad(decoded.dsts, n, "");
        assert checksCp == Pad(checks, n, NoError);
        updated := AcceptItems(dstsCp, checksCp, force);
      }
    }

    /** The pre-processing loop of `request`: every item's lines, in item order. */
    method FlattenSources() returns (srcs: seq<string>)
      ensures srcs == Flatten(sources)
      ensures srcs != [] ==> |sources| > 0
    {
      srcs := [];
      for k := 0 to |sources|
        invariant srcs == Flatten(sources[..k])
      {
        assert sources[..k + 1][..k] == sources[..k];
        srcs := srcs + sources[k];
      }
      assert sources[..|sources|] == sources;
    }

    /** The acceptance loop of `request`: each item pops its lines and verdicts
        off the front of the padded lists and takes its post-processed
        translation when all its verdicts passed or acceptance is forced. */
    method AcceptItems(dstsCp0: seq<string>, checksCp0: seq<Error>, force: bool) returns (updated: nat)
      requires Valid()
      requires |dstsCp0| >= |Flatten(sources)| && |checksCp0| >= |Flatten(sources)|
      modifies items
      ensures updated == TakenCount(checksCp0, sources, force, |sources|)
      ensures forall k :: 0 <= k < |items| ==>
                StateOf(items[k]) == Taken(dstsCp0, checksCp0, force, k, old(StateOf(items[k])))
    {
      var dstsCp, checksCp := dstsCp0, checksCp0;
      updated := 0;
      for k := 0 to |items|
        invariant Offset(sources, k) <= |Flatten(sources)|
        invariant dstsCp == dstsCp0[Offset(sources, k)..] && checksCp == checksCp0[Offset(sources, k)..]
        invariant updated == TakenCount(checksCp0, sources, force, k)
        invariant forall j :: 0 <= j < k ==>
                    StateOf(items[j]) == Taken(dstsCp0, checksCp0, force, j, old(StateOf(items[j])))
        invariant forall j :: k <= j < |items| ==> StateOf(items[j]) == old(StateOf(items[j]))
      {
        var took;
        dstsCp, checksCp, took := TakeItem(k, dstsCp, checksCp, force, dstsCp0, checksCp0);
        if took {
          updated := updated + 1;
        }
      }
    }

    /** One turn of the acceptance loop: item `k` pops its lines and verdicts
        and takes its post-processed translation when they all passed or
        acceptance is forced. */
    method TakeItem(k: nat, dstsCp: seq<string>, checksCp: seq<Error>, force: bool,
                    ghost dstsCp0: seq<string>, ghost checksCp0: seq<Error>)
      returns (dstsRest: seq<string>, checksRest: seq<Error>, took: bool)
      requires Valid() && k < |items|
      requires |dstsCp0| >= |Flatten(sources)| && |checksCp0| >= |Flatten(sources)|
      requires Offset(sources, k) <= |Flatten(sources)|
      requires dstsCp == dstsCp0[Offset(sources, k)..] && checksCp == checksCp0[Offset(sources, k)..]
      modifies items[k]
      ensures Offset(sources, k + 1) <= |Flatten(sources)|
      ensures dstsRest == dstsCp0[Offset(sources, k + 1)..] && checksRest == checksCp0[Offset(sources, k + 1)..]
      ensures took == Takes(checksCp0, sources, k, force)
      ensures StateOf(items[k]) == Taken(dstsCp0, checksCp0, force, k, old(StateOf(items[k])))
    {
      PopSlice(dstsCp, dstsCp0, sources, k);
      PopSlice(checksCp, checksCp0, sources, k);
      var length := |sources[k]|;
      var dstsEx, checksEx := dstsCp[..length], checksCp[..length];
      dstsRest, checksRest := dstsCp[length..], checksCp[length..];
      took := AllAre(checksEx, NoError) || force;
      if took {
        SetTranslation(items[k], services.postProcess(k, dstsEx));
      }
    }

    /** The state `AcceptItems` leaves item `k` in, from its state `s` before. */
    ghost function Taken(dstsCp0: seq<string>, checksCp0: seq<Error>, force: bool, k: nat, s: ItemState): ItemState
      requires k < |sources| && |dstsCp0| >= |Flatten(sources)| && |checksCp0| >= |Flatten(sources)|
    {
      if Takes(checksCp0, sources, k, force)
      then Accept(s, services.postProcess(k, Slice(dstsCp0, sources, k)))
      else s
    }

    /** The pair loop of `merge_glossary`: appends each pair with non-empty,
        different sides whose source term is not a key yet, and records the
        term as a key. `data0` is the glossary before the merge. */
    method MergePairs(srcs: seq<string>, dsts: seq<string>, info: string, keys: set<string>, changed: bool,
                      ghost data0: seq<Entry>)
      returns (keys': set<string>, changed': bool)
      requires |srcs| == |dsts| && keys == Keys(store.data)
      requires |store.data| >= |data0| && (changed <==> |store.data| > |data0|)
      modifies store
      ensures store.data == AdmitPairs(old(store.data), srcs, dsts, info)
      ensures keys' == Keys(store.data)
      ensures |store.data| >= |data0| && (changed' <==> |store.data| > |data0|)
      ensures store.persists == old(store.persists) && store.saveTime == old(store.saveTime)
    {
      keys', changed' := keys, changed;
      for j := 0 to |srcs|
        invariant keys' == Keys(store.data)
        invariant AdmitPairs(store.data, srcs[j..], dsts[j..], info) == AdmitPairs(old(store.data), srcs, dsts, info)
        invariant |store.data| >= |data0| && (changed' <==> |store.data| > |data0|)
        invariant store.persists == old(store.persists) && store.saveTime == old(store.saveTime)
      {
        assert srcs[j..][1..] == srcs[j + 1..] && dsts[j..][1..] == dsts[j + 1..];
        var s := Trim(srcs[j]);
        var d := Trim(dsts[j]);
        if s == d || s == [] || d == [] {
          continue;
        }
        if s !in keys' {
          changed' := true;
          KeysOfSnoc(store.data, Entry(s, d, info));
          keys' := keys' + {s};
          store.data := store.data + [Entry(s, d, info)];
        }
      }
      assert AdmitPairs(store.data, srcs[|srcs|..], dsts[|srcs|..], info) == store.data;
    }

    /** `merge_glossary`: when both glossary switches are on, appends each new
        term pair of the gendered candidates to the glossary, then persists it
        if something was appended and the interval has passed. */
    method MergeGlossary(glossary: seq<Candidate>, lastSaveTime: real, now: real) returns (t: real)
      modifies store
      ensures !(config.glossaryEnable && config.autoGlossaryEnable) ==> store.data == old(store.data)
      ensures config.glossaryEnable && config.autoGlossaryEnable ==>
                store.data == MergeAll(old(store.data), glossary, helpers.splitByPunctuation)
      ensures t == NextSaveTime(config, |store.data| > |old(store.data)|, lastSaveTime, now)
      ensures store.persists == old(store.persists) + (if PersistDue(config, |store.data| > |old(store.data)|, lastSaveTime, now) then 1 else 0)
      ensures store.saveTime == old(store.saveTime)
      ensures Grows(old(store.data), store.data)
    {
      if !config.glossaryEnable || !config.autoGlossaryEnable {
        assert store.data[|store.data|..] == [];
        return lastSaveTime;
      }
      var split := helpers.splitByPunctuation;
      ghost var data0 := store.data;
      var keys := set e | e in store.data :: e.src;
      var changed := false;
      for i := 0 to |glossary|
        invariant keys == Keys(store.data)
        invariant MergeAll(store.data, glossary[i..], split) == MergeAll(data0, glossary, split)
        invariant |store.data| >= |data0| && (changed <==> |store.data| > |data0|)
        invariant store.persists == old(store.persists) && store.saveTime == old(store.saveTime)
      {
        assert glossary[i..][1..] == glossary[i + 1..];
        ghost var target := AdmitCandidate(store.data, glossary[i], split);
        var src := Trim(glossary[i].src);
        var dst := Trim(glossary[i].dst);
        var info := Trim(glossary[i].info);
        if !Gendered(info) {
          continue;
        }
        var srcs := split(src);
        var dsts := split(dst);
        if |srcs| != |dsts| {
          srcs := [src];
          dsts := [dst];
        }
        assert (srcs, dsts) == Aligned(src, dst, split);
        keys, changed := MergePairs(srcs, dsts, info, keys, changed, data0);
        assert store.data == target;
      }
      assert MergeAll(store.data, glossary[|glossary|..], split) == store.data;
      MergeAllAppendsOnly(data0, glossary, split);
      if changed && now - lastSaveTime > GlossarySaveInterval {
        store.persists := store.persists + 1;
        return now;
      }
      return lastSaveTime;
    }
  }
}
