/**
 The loops of `syncLocale` (scripts/control-ui-i18n.ts), proved to compute what
 module LocaleSync says a run yields.
 */
module LocaleSyncLoop {
  import opened Common
  import opened TranslationMemory
  import opened BatchPlanner
  import BT = BatchTranslation
  import opened LocaleSync
  import opened SourceOrder

  /** The choice for every line. */
  function Choices(env: Env, lines: seq<Line>): (cs: seq<Choice>)
    ensures |cs| == |lines|
    ensures forall i :: 0 <= i < |lines| ==> cs[i] == Choose(env, lines[i])
  {
    seq(|lines|, i requires 0 <= i < |lines| => Choose(env, lines[i]))
  }

  /** The keys among the first n lines that are resolved without the provider. */
  ghost function ResolvedKeys(lines: seq<Line>, cs: seq<Choice>, n: nat): set<string>
    requires n <= |lines| == |cs|
  {
    set i | 0 <= i < n && !cs[i].Defer? :: lines[i].key
  }

  /** The keys among the first n lines that are kept as fallbacks. */
  ghost function KeptFallbacks(lines: seq<Line>, cs: seq<Choice>, n: nat): set<string>
    requires n <= |lines| == |cs|
  {
    set i | 0 <= i < n && cs[i].Keep? && cs[i].fallback :: lines[i].key
  }

  function ChosenText(c: Choice): string
    requires !c.Defer?
  {
    if c.Keep? then c.text else c.entry.translated
  }

  ghost predicate FlatUpTo(lines: seq<Line>, cs: seq<Choice>, n: nat, flat: map<string, string>)
    requires n <= |lines| == |cs|
  {
    && flat.Keys == ResolvedKeys(lines, cs, n)
    && forall i :: 0 <= i < n && !cs[i].Defer? ==> lines[i].key in flat && flat[lines[i].key] == ChosenText(cs[i])
  }

  lemma {:induction false} FallbacksStep(lines: seq<Line>, cs: seq<Choice>, n: nat)
    requires n < |lines| == |cs|
    ensures KeptFallbacks(lines, cs, n + 1) ==
            KeptFallbacks(lines, cs, n) + (if cs[n].Keep? && cs[n].fallback then {lines[n].key} else {})
  {
  }

  lemma {:induction false} FlatStep(lines: seq<Line>, cs: seq<Choice>, n: nat, flat: map<string, string>)
    requires Distinct(lines) && n < |lines| == |cs| && FlatUpTo(lines, cs, n, flat)
    ensures cs[n].Defer? ==> FlatUpTo(lines, cs, n + 1, flat)
    ensures !cs[n].Defer? ==> FlatUpTo(lines, cs, n + 1, flat[lines[n].key := ChosenText(cs[n])])
  {
  }

  /** The segment that line n looks up has not been written by earlier lines. */
  lemma {:induction false} EarlierLinesDoNotTouch(env: Env, lines: seq<Line>, n: nat)
    requires Distinct(lines) && Unique(env.tm) && n < |lines|
    ensures Get(ResolvedMemory(env, lines[..n]), CacheKeyOf(env.cfg, lines[n])) == Get(env.tm, CacheKeyOf(env.cfg, lines[n]))
  {
    ResolvedLookup(env, lines[..n], CacheKeyOf(env.cfg, lines[n]));
  }

  /** Where the resolution loop stands before line n. */
  ghost predicate Progress(env: Env, lines: seq<Line>, n: nat, flat: map<string, string>, pending: seq<Item>,
                           fallbackKeys: seq<string>, tm: Memory)
    requires n <= |lines|
  {
    && FlatUpTo(lines, Choices(env, lines), n, flat)
    && pending == Deferred(env, lines[..n])
    && (set k | k in fallbackKeys) == KeptFallbacks(lines, Choices(env, lines), n)
    && tm == ResolvedMemory(env, lines[..n])
  }

  lemma {:induction false} ProgressStep(env: Env, lines: seq<Line>, n: nat, flat: map<string, string>, pending: seq<Item>,
                                        fallbackKeys: seq<string>, tm: Memory)
    requires Distinct(lines) && n < |lines| && Progress(env, lines, n, flat, pending, fallbackKeys, tm)
    ensures var line := lines[n];
            match Choose(env, line)
            case Keep(text, fallback) =>
              Progress(env, lines, n + 1, flat[line.key := text], pending,
                       if fallback then fallbackKeys + [line.key] else fallbackKeys, tm)
            case Copy(e) =>
              Progress(env, lines, n + 1, flat[line.key := e.translated], pending, fallbackKeys, Put(tm, e))
            case Defer =>
              Progress(env, lines, n + 1, flat, pending + [ItemOf(env.cfg, line)], fallbackKeys, tm)
  {
    FlatStep(lines, Choices(env, lines), n, flat);
    FallbacksStep(lines, Choices(env, lines), n);
    assert lines[..n + 1][..n] == lines[..n];
    assert (set k | k in fallbackKeys + [lines[n].key]) == (set k | k in fallbackKeys) + {lines[n].key};
  }

  /** Where a key stands after the resolution: it has its value from the segment cache, the
      text-hash cache or the existing file, in this order, or is left for the provider. */
  ghost predicate ResolvedAs(env: Env, line: Line, flat: map<string, string>, pending: seq<Item>, fallbackKeys: seq<string>) {
    var segment := Segment(line.key, line.textHash, env.cfg.locale);
    var refresh := line.key in env.previousFallback;
    if Get(env.tm, segment).Some? && !(env.cfg.allowTranslate && refresh) then
      Valued(line.key, Get(env.tm, segment).value.translated, refresh, flat, fallbackKeys)
    else if line.textHash in env.byText && (refresh || line.key !in env.existing) then
      Valued(line.key, env.byText[line.textHash].translated, false, flat, fallbackKeys)
    else if line.key in env.existing && !(env.cfg.allowTranslate && refresh) then
      Valued(line.key, env.existing[line.key], refresh, flat, fallbackKeys)
    else
      line.key !in flat && line.key !in fallbackKeys && Item(segment, line.key, line.text, line.textHash) in pending
  }

  predicate Valued(key: string, value: string, fallback: bool, flat: map<string, string>, fallbackKeys: seq<string>) {
    key in flat && flat[key] == value && (key in fallbackKeys <==> fallback)
  }

  lemma {:induction false} KeptFallbackIs(lines: seq<Line>, cs: seq<Choice>, i: nat)
    requires Distinct(lines) && i < |lines| == |cs|
    ensures lines[i].key in KeptFallbacks(lines, cs, |lines|) <==> cs[i].Keep? && cs[i].fallback
    ensures lines[i].key in ResolvedKeys(lines, cs, |lines|) <==> !cs[i].Defer?
  {
  }

  /** The line by the choice that is made for it. */
  ghost predicate ResolvedBy(c: Choice, line: Line, flat: map<string, string>, fallbackKeys: seq<string>) {
    if c.Defer? then line.key !in flat && line.key !in fallbackKeys
    else Valued(line.key, ChosenText(c), c.Keep? && c.fallback, flat, fallbackKeys)
  }

  lemma {:induction false} LineByChoice(lines: seq<Line>, cs: seq<Choice>, i: nat, flat: map<string, string>, fallbackKeys: seq<string>)
    requires Distinct(lines) && i < |lines| == |cs| && FlatUpTo(lines, cs, |lines|, flat)
    requires (set k | k in fallbackKeys) == KeptFallbacks(lines, cs, |lines|)
    ensures ResolvedBy(cs[i], lines[i], flat, fallbackKeys)
  {
    var k := lines[i].key;
    KeptFallbackIs(lines, cs, i);
    assert k in fallbackKeys <==> k in (set x | x in fallbackKeys);
    assert k in flat <==> k in flat.Keys;
  }

  lemma {:induction false} ResolvedLine(env: Env, lines: seq<Line>, i: nat, flat: map<string, string>, pending: seq<Item>,
                                        fallbackKeys: seq<string>, tm: Memory)
    requires Distinct(lines) && i < |lines| && Progress(env, lines, |lines|, flat, pending, fallbackKeys, tm)
    ensures ResolvedAs(env, lines[i], flat, pending, fallbackKeys)
  {
    TakeAll(lines);
    LineByChoice(lines, Choices(env, lines), i, flat, fallbackKeys);
    if Choose(env, lines[i]).Defer? {
      DeferredHolds(env, lines, i);
    }
    ChoiceResolves(env, lines[i], flat, pending, fallbackKeys);
  }

  lemma {:induction false} ChoiceResolves(env: Env, line: Line, flat: map<string, string>, pending: seq<Item>, fallbackKeys: seq<string>)
    requires ResolvedBy(Choose(env, line), line, flat, fallbackKeys)
    requires Choose(env, line).Defer? ==> ItemOf(env.cfg, line) in pending
    ensures ResolvedAs(env, line, flat, pending, fallbackKeys)
  {
  }

  method Resolve(env: Env, lines: seq<Line>)
    returns (flat: map<string, string>, pending: seq<Item>, fallbackKeys: seq<string>, tm: Memory)
    requires Distinct(lines) && Unique(env.tm)
    ensures Progress(env, lines, |lines|, flat, pending, fallbackKeys, tm)
    ensures forall i :: 0 <= i < |lines| ==> ResolvedAs(env, lines[i], flat, pending, fallbackKeys)
  {
    flat, pending, fallbackKeys, tm := map[], [], [], env.tm;
    var allowTranslate := env.cfg.allowTranslate;
    for i := 0 to |lines|
      invariant Progress(env, lines, i, flat, pending, fallbackKeys, tm)
    {
      var line := lines[i];
      EarlierLinesDoNotTouch(env, lines, i);
      ProgressStep(env, lines, i, flat, pending, fallbackKeys, tm);
      var segmentCacheKey := CacheKeyOf(env.cfg, line);
      var cached := Get(tm, segmentCacheKey);
      var shouldRefreshFallback := line.key in env.previousFallback;
      if cached.Some? && !(allowTranslate && shouldRefreshFallback) {
        assert Choose(env, line) == Keep(cached.value.translated, shouldRefreshFallback);
        flat := flat[line.key := cached.value.translated];
        if shouldRefreshFallback {
          fallbackKeys := fallbackKeys + [line.key];
        }
        continue;
      }
      if line.textHash in env.byText && (shouldRefreshFallback || line.key !in env.existing) {
        var cachedByText := env.byText[line.textHash];
        var copy := cachedByText.(cacheKey := segmentCacheKey, segmentId := line.key, sourcePath := env.cfg.sourcePath);
        assert Choose(env, line) == Copy(copy);
        flat := flat[line.key := cachedByText.translated];
        tm := Put(tm, copy);
        continue;
      }
      if line.key in env.existing && !(allowTranslate && shouldRefreshFallback) {
        assert Choose(env, line) == Keep(env.existing[line.key], shouldRefreshFallback);
        flat := flat[line.key := env.existing[line.key]];
        if shouldRefreshFallback {
          fallbackKeys := fallbackKeys + [line.key];
        }
        continue;
      }
      assert Choose(env, line) == Defer;
      pending := pending + [Item(segmentCacheKey, line.key, line.text, line.textHash)];
    }
    forall i | 0 <= i < |lines|
      ensures ResolvedAs(env, lines[i], flat, pending, fallbackKeys)
    {
      ResolvedLine(env, lines, i, flat, pending, fallbackKeys, tm);
    }
  }

  // ------------------------------------------------------------ provider stage

  lemma {:induction false} TranslatedAgree(cfg: Config, tm: Memory, items: seq<Item>, t: Translations, t': Translations, now: string)
    requires forall i :: 0 <= i < |items| ==>
               items[i].key in t && items[i].key in t' && t[items[i].key] == t'[items[i].key]
    ensures TranslatedMemory(cfg, tm, items, t, now) == TranslatedMemory(cfg, tm, items, t', now)
  {
    if items == [] {
    } else {
      TranslatedAgree(cfg, tm, items[..|items| - 1], t, t', now);
    }
  }

  lemma {:induction false} TranslatedAppend(cfg: Config, tm: Memory, a: seq<Item>, b: seq<Item>, t: Translations, now: string)
    ensures TranslatedMemory(cfg, tm, a + b, t, now) == TranslatedMemory(cfg, TranslatedMemory(cfg, tm, a, t, now), b, t, now)
  {
    if b == [] {
      assert a + b == a;
    } else {
      assert (a + b)[..|a + b| - 1] == a + b[..|b| - 1];
      TranslatedAppend(cfg, tm, a, b[..|b| - 1], t, now);
    }
  }

  /** Storing one batch after others with other keys. */
  lemma {:induction false} StoreAfter(cfg: Config, tm: Memory, done: seq<Item>, batch: seq<Item>, t: Translations, tr: Translations, now: string)
    requires t.Keys == BT.Keys(done) && tr.Keys == BT.Keys(batch) && t.Keys !! tr.Keys
    ensures TranslatedMemory(cfg, TranslatedMemory(cfg, tm, done, t, now), batch, tr, now)
            == TranslatedMemory(cfg, tm, done + batch, t + tr, now)
    ensures (t + tr).Keys == BT.Keys(done + batch)
  {
    forall i | 0 <= i < |done|
      ensures done[i].key in t && (t + tr)[done[i].key] == t[done[i].key]
    {
      assert done[i].key in BT.Keys(done);
    }
    forall i | 0 <= i < |batch|
      ensures batch[i].key in tr && (t + tr)[batch[i].key] == tr[batch[i].key]
    {
      assert batch[i].key in BT.Keys(batch);
    }
    TranslatedAgree(cfg, tm, done, t, t + tr, now);
    TranslatedAgree(cfg, TranslatedMemory(cfg, tm, done, t, now), batch, tr, t + tr, now);
    TranslatedAppend(cfg, tm, done, batch, t + tr, now);
    BT.KeysSplit(done + batch, |done|);
    assert (done + batch)[..|done|] == done && (done + batch)[|done|..] == batch;
  }

  lemma OverrideAssoc(a: map<string, string>, b: map<string, string>, c: map<string, string>)
    ensures (a + b) + c == a + (b + c)
  {
  }

  lemma OverrideOne(a: map<string, string>, b: map<string, string>, k: string, v: string)
    ensures (a + b)[k := v] == a + b[k := v]
  {
  }

  /** The translations of the first n items. */
  ghost function Part(batch: seq<Item>, n: nat, translated: Translations): Translations
    requires n <= |batch|
  {
    map k | k in translated && k in BT.Keys(batch[..n]) :: translated[k]
  }

  lemma {:induction false} PartStep(batch: seq<Item>, n: nat, translated: Translations)
    requires n < |batch| && translated.Keys == BT.Keys(batch)
    ensures batch[n].key in translated
    ensures Part(batch, n + 1, translated) == Part(batch, n, translated)[batch[n].key := translated[batch[n].key]]
  {
    var item := batch[n];
    assert item.key in BT.Keys(batch);
    BT.KeysSplit(batch[..n + 1], n);
    assert batch[..n + 1][..n] == batch[..n] && batch[..n + 1][n..] == [item];
    assert BT.Keys([item]) == {item.key} by { assert [item][0].key == item.key; }
  }

  method StoreBatch(cfg: Config, batch: seq<Item>, translated: Translations, flat: map<string, string>, tm: Memory, now: string)
    returns (flat': map<string, string>, tm': Memory)
    requires translated.Keys == BT.Keys(batch) && forall k :: k in translated ==> !Blank(translated[k])
    ensures flat' == flat + translated
    ensures tm' == TranslatedMemory(cfg, tm, batch, translated, now)
  {
    flat', tm' := flat, tm;
    for i := 0 to |batch|
      invariant flat' == flat + Part(batch, i, translated)
      invariant tm' == TranslatedMemory(cfg, tm, batch[..i], translated, now)
    {
      var item := batch[i];
      assert batch[..i + 1][..i] == batch[..i];
      PartStep(batch, i, translated);
      var value := translated[item.key];
      OverrideOne(flat, Part(batch, i, translated), item.key, value);
      assert !Blank(value);
      if value == "" {
        assert false;
      }
      flat' := flat'[item.key := value];
      tm' := Put(tm', Fresh(cfg, item, value, now));
    }
    assert batch[..|batch|] == batch;
    assert Part(batch, |batch|, translated) == translated;
  }

  lemma {:induction false} NextBatchIsNew(pending: seq<Item>, batches: seq<seq<Item>>, b: nat)
    requires DistinctItems(pending) && Concat(batches) == pending && b < |batches|
    ensures BT.Keys(Concat(batches[..b])) !! BT.Keys(batches[b])
    ensures Concat(batches[..b + 1]) == Concat(batches[..b]) + batches[b]
  {
    ConcatSnoc(batches, b);
    ConcatAround(batches, b);
    PartsDiffer(pending, Concat(batches[..b]), batches[b], Concat(batches[b + 1..]));
  }

  lemma {:induction false} PartsDiffer(all: seq<Item>, a: seq<Item>, b: seq<Item>, c: seq<Item>)
    requires DistinctItems(all) && all == a + (b + c)
    ensures BT.Keys(a) !! BT.Keys(b)
  {
    forall i, j | 0 <= i < |a| && 0 <= j < |b|
      ensures a[i].key != b[j].key
    {
      assert all[i] == a[i] && all[|a| + j] == b[j];
    }
  }

  /** Where the provider stage stands after b batches. */
  ghost predicate Stored(cfg: Config, batches: seq<seq<Item>>, b: nat, t: Translations, flat: map<string, string>, tm: Memory,
                         flat': map<string, string>, tm': Memory, now: string)
    requires b <= |batches|
  {
    && t.Keys == BT.Keys(Concat(batches[..b]))
    && (forall k :: k in t ==> !Blank(t[k]))
    && flat' == flat + t
    && tm' == TranslatedMemory(cfg, tm, Concat(batches[..b]), t, now)
  }

  lemma {:induction false} StoredNothing(cfg: Config, batches: seq<seq<Item>>, flat: map<string, string>, tm: Memory, now: string)
    ensures Stored(cfg, batches, 0, map[], flat, tm, flat, tm, now)
  {
    assert batches[..0] == [];
  }

  lemma {:induction false} StoredStep(cfg: Config, pending: seq<Item>, batches: seq<seq<Item>>, b: nat, t: Translations,
                                      flat: map<string, string>, tm: Memory, flat': map<string, string>, tm': Memory,
                                      tr: Translations, now: string)
    requires DistinctItems(pending) && Concat(batches) == pending && b < |batches|
    requires Stored(cfg, batches, b, t, flat, tm, flat', tm', now)
    requires tr.Keys == BT.Keys(batches[b]) && forall k :: k in tr ==> !Blank(tr[k])
    ensures Stored(cfg, batches, b + 1, t + tr, flat, tm, flat' + tr, TranslatedMemory(cfg, tm', batches[b], tr, now), now)
  {
    NextBatchIsNew(pending, batches, b);
    StoreAfter(cfg, tm, Concat(batches[..b]), batches[b], t, tr, now);
    OverrideAssoc(flat, t, tr);
  }

  /** The message is the error of prompt number asked - 1, asked for part of a batch. */
  ghost predicate LastPromptError(pending: seq<Item>, budget: int, script: nat -> BT.Attempt, asked: nat, message: string) {
    asked > 0 && SomePartError(Greedy(pending, budget, LOOP_CHARGE), script(asked - 1), message)
  }

  ghost predicate SomePartError(batches: seq<seq<Item>>, a: BT.Attempt, message: string) {
    exists b: nat, part :: PartError(batches, b, part, a, message)
  }

  ghost predicate PartError(batches: seq<seq<Item>>, b: nat, part: (nat, nat), a: BT.Attempt, message: string) {
    b < |batches| && BT.LastError(part, batches[b], a, message)
  }

  /** Every translation is the provider's text in one of the attempts from a to b. */
  ghost predicate AllAnswered(t: Translations, script: nat -> BT.Attempt, a: nat, b: nat) {
    forall k :: k in t ==> BT.Answered(script, a, b, k, t[k])
  }

  lemma {:induction false} AnsweredStep(t: Translations, tr: Translations, script: nat -> BT.Attempt, a: nat, m: nat, b: nat)
    requires a <= m <= b && AllAnswered(t, script, a, m) && AllAnswered(tr, script, m, b)
    ensures AllAnswered(t + tr, script, a, b)
  {
    forall k | k in t + tr
      ensures BT.Answered(script, a, b, k, (t + tr)[k])
    {
      if k in tr {
        assert BT.Answered(script, m, b, k, tr[k]);
      } else {
        assert BT.Answered(script, a, m, k, t[k]);
      }
    }
  }

  lemma {:induction false} ErrorIsOfLastPrompt(pending: seq<Item>, budget: int, b: nat, script: nat -> BT.Attempt, n: nat, r: BT.Run)
    requires b < |Greedy(pending, budget, LOOP_CHARGE)| && r.result.Err?
    requires BT.Fares(r, Greedy(pending, budget, LOOP_CHARGE)[b], script, n)
    ensures LastPromptError(pending, budget, script, r.next, r.result.error)
  {
    var batch := Greedy(pending, budget, LOOP_CHARGE)[b];
    var c :| BT.Takes(c, BT.WorthIn(batch, script), 0, |batch|, n) && BT.Follows(r, c, batch, script, 0, |batch|);
    assert PartError(Greedy(pending, budget, LOOP_CHARGE), b, BT.LastAsked(c, 0, |batch|), script(r.next - 1), r.result.error);
  }

  /** Batches are translated and stored one by one; the first failure stops. */
  method TranslatePending(cfg: Config, provider: BT.Provider, pending: seq<Item>, budget: int,
                          flat: map<string, string>, tm: Memory, now: string)
    returns (failure: Option<string>, flat': map<string, string>, tm': Memory, ghost t: Translations)
    requires DistinctItems(pending) && !provider.tainted
    modifies provider
    ensures !provider.hasClient && !provider.tainted
    ensures failure.None? <==> BT.BatchesServed(Greedy(pending, budget, LOOP_CHARGE), provider.script, old(provider.asked))
    ensures failure.Some? ==> LastPromptError(pending, budget, provider.script, provider.asked, failure.value)
    ensures failure.None? ==>
              && t.Keys == BT.Keys(pending)
              && (forall k :: k in t ==> !Blank(t[k]))
              && AllAnswered(t, provider.script, old(provider.asked), provider.asked)
              && flat' == flat + t
              && tm' == TranslatedMemory(cfg, tm, pending, t, now)
  {
    var batches := BuildTranslationBatches(pending, budget);
    assert Concat(batches) == pending;
    flat', tm', t, failure := flat, tm, map[], None;
    StoredNothing(cfg, batches, flat, tm, now);
    for b := 0 to |batches|
      invariant !provider.tainted
      invariant Stored(cfg, batches, b, t, flat, tm, flat', tm', now)
      invariant old(provider.asked) <= provider.asked && AllAnswered(t, provider.script, old(provider.asked), provider.asked)
      invariant BT.BatchesServed(batches, provider.script, old(provider.asked)) <==>
                BT.BatchesServed(batches[b..], provider.script, provider.asked)
    {
      ghost var asked := provider.asked;
      var r := BT.TranslateBatch(provider, batches[b]);
      BT.ServedByRun(batches, b, provider.script, asked, BT.Run(r, provider.asked));
      if r.Err? {
        ErrorIsOfLastPrompt(pending, budget, b, provider.script, asked, BT.Run(r, provider.asked));
        provider.ResetClient();
        failure := Some(r.error);
        return;
      }
      assert r.value.Keys == BT.Keys(batches[b]) && forall k :: k in r.value ==> !Blank(r.value[k]);
      StoredStep(cfg, pending, batches, b, t, flat, tm, flat', tm', r.value, now);
      AnsweredStep(t, r.value, provider.script, old(provider.asked), asked, provider.asked);
      flat', tm' := StoreBatch(cfg, batches[b], r.value, flat', tm', now);
      t := t + r.value;
    }
    TakeAll(batches);
    provider.ResetClient();
  }

  // ------------------------------------------------------------ fallback stage

  /** The pending items that have a value are those with a translation. */
  ghost predicate Served(pending: seq<Item>, flat: map<string, string>, t: Translations) {
    forall i :: 0 <= i < |pending| ==> (pending[i].key in flat <==> pending[i].key in t)
  }

  /** The map after the last loop has passed n deferred items. */
  ghost predicate FilledFlat(env: Env, pending: seq<Item>, n: nat, t: Translations, flat: map<string, string>, flat': map<string, string>)
    requires n <= |pending|
  {
    && flat'.Keys == flat.Keys + BT.Keys(pending[..n])
    && (forall k :: k in flat ==> flat'[k] == flat[k])
    && (forall i :: 0 <= i < n ==> pending[i].key in flat'
                                   && flat'[pending[i].key] == DeferredValue(env, pending[i].key, pending[i].text, t))
  }

  ghost function NewFallbacks(env: Env, pending: seq<Item>, n: nat, t: Translations): set<string>
    requires n <= |pending|
  {
    set i | 0 <= i < n && DeferredFallsBack(env, pending[i].key, t) :: pending[i].key
  }

  ghost predicate Filled(env: Env, pending: seq<Item>, n: nat, t: Translations, flat: map<string, string>, fallback: set<string>,
                         flat': map<string, string>, fallback': set<string>)
    requires n <= |pending|
  {
    FilledFlat(env, pending, n, t, flat, flat') && fallback' == fallback + NewFallbacks(env, pending, n, t)
  }

  lemma {:induction false} FilledStep(env: Env, pending: seq<Item>, n: nat, t: Translations, flat: map<string, string>,
                                      flat': map<string, string>)
    requires DistinctItems(pending) && n < |pending| && FilledFlat(env, pending, n, t, flat, flat')
    requires Served(pending, flat, t)
    requires pending[n].key in flat ==> flat[pending[n].key] == t[pending[n].key]
    ensures pending[n].key in flat' <==> pending[n].key in t
    ensures var k := pending[n].key;
            FilledFlat(env, pending, n + 1, t, flat,
                       if k in flat' then flat' else flat'[k := DeferredValue(env, k, pending[n].text, t)])
  {
    var k := pending[n].key;
    BT.KeysSplit(pending[..n + 1], n);
    assert pending[..n + 1][..n] == pending[..n] && pending[..n + 1][n..] == [pending[n]];
    assert BT.Keys([pending[n]]) == {k} by { assert [pending[n]][0].key == k; }
    assert k !in BT.Keys(pending[..n]);
  }

  lemma NewFallbacksStep(env: Env, pending: seq<Item>, n: nat, t: Translations)
    requires n < |pending|
    ensures NewFallbacks(env, pending, n + 1, t) ==
            NewFallbacks(env, pending, n, t) + (if DeferredFallsBack(env, pending[n].key, t) then {pending[n].key} else {})
  {
  }

  /** The keys on a list, each once. */
  function KeysIn(keys: seq<string>): set<string> {
    set k | k in keys
  }

  lemma KeysInSnoc(keys: seq<string>, k: string)
    ensures KeysIn(keys + [k]) == KeysIn(keys) + {k}
  {
  }

  lemma {:induction false} FilledNothing(env: Env, pending: seq<Item>, t: Translations, flat: map<string, string>, fallback: set<string>)
    ensures Filled(env, pending, 0, t, flat, fallback, flat, fallback)
  {
    assert pending[..0] == [];
  }

  function AfterItem(env: Env, item: Item, flat: map<string, string>, fallback: set<string>): (map<string, string>, set<string>) {
    var k := item.key;
    if k in flat then (flat, fallback)
    else if k in env.existing && !env.cfg.force then
      (flat[k := env.existing[k]], if k in env.previousFallback then fallback + {k} else fallback)
    else (flat[k := item.text], fallback + {k})
  }

  /** What one turn of the loop has to do. */
  lemma {:induction false} FilledNext(env: Env, pending: seq<Item>, n: nat, t: Translations, flat: map<string, string>,
                                      fallback: set<string>, flat': map<string, string>, fallback': set<string>)
    requires DistinctItems(pending) && n < |pending| && Served(pending, flat, t)
    requires forall k :: k in t ==> k in flat && flat[k] == t[k]
    requires Filled(env, pending, n, t, flat, fallback, flat', fallback')
    ensures var after := AfterItem(env, pending[n], flat', fallback');
            Filled(env, pending, n + 1, t, flat, fallback, after.0, after.1)
  {
    FilledStep(env, pending, n, t, flat, flat');
    NewFallbacksStep(env, pending, n, t);
  }

  method FillFallbacks(env: Env, pending: seq<Item>, flat: map<string, string>, fallbackKeys: seq<string>, ghost t: Translations)
    returns (flat': map<string, string>, fallbackKeys': seq<string>)
    requires DistinctItems(pending)
    requires Served(pending, flat, t)
    requires forall k :: k in t ==> k in flat && flat[k] == t[k]
    ensures Filled(env, pending, |pending|, t, flat, KeysIn(fallbackKeys), flat', KeysIn(fallbackKeys'))
  {
    flat', fallbackKeys' := flat, fallbackKeys;
    FilledNothing(env, pending, t, flat, KeysIn(fallbackKeys));
    for i := 0 to |pending|
      invariant Filled(env, pending, i, t, flat, KeysIn(fallbackKeys), flat', KeysIn(fallbackKeys'))
    {
      FilledNext(env, pending, i, t, flat, KeysIn(fallbackKeys), flat', KeysIn(fallbackKeys'));
      flat', fallbackKeys' := FillOne(env, pending[i], flat', fallbackKeys');
    }
  }

  /** The body of the loop. */
  method FillOne(env: Env, item: Item, flat: map<string, string>, fallbackKeys: seq<string>)
    returns (flat': map<string, string>, fallbackKeys': seq<string>)
    ensures (flat', KeysIn(fallbackKeys')) == AfterItem(env, item, flat, KeysIn(fallbackKeys))
  {
    flat', fallbackKeys' := flat, fallbackKeys;
    KeysInSnoc(fallbackKeys, item.key);
    if item.key in flat' {
      return;
    }
    if item.key in env.existing && !env.cfg.force {
      flat' := flat'[item.key := env.existing[item.key]];
      if item.key in env.previousFallback {
        fallbackKeys' := fallbackKeys' + [item.key];
      }
      return;
    }
    flat' := flat'[item.key := item.text];
    fallbackKeys' := fallbackKeys' + [item.key];
  }

  // ------------------------------------------------------------- the whole run

  lemma {:induction false} ProviderCompletes(env: Env, lines: seq<Line>, t: Translations)
    requires Distinct(lines) && env.cfg.allowTranslate
    requires t.Keys == BT.Keys(Deferred(env, lines)) && forall k :: k in t ==> !Blank(t[k])
    ensures Completed(env, lines, t)
  {
    forall i | 0 <= i < |lines|
      ensures lines[i].key in t <==> Choose(env, lines[i]).Defer?
    {
      var x := DeferredFind(env, lines, i);
      KeyOfLine(env, lines, i, x);
    }
    DeferredKeysAreLines(env, lines);
  }

  lemma {:induction false} LineComposes(env: Env, lines: seq<Line>, t: Translations, flat0: map<string, string>,
                                        flat: map<string, string>, i: nat)
    requires Distinct(lines) && t.Keys <= BT.Keys(Deferred(env, lines)) && i < |lines|
    requires FlatUpTo(lines, Choices(env, lines), |lines|, flat0)
    requires FilledFlat(env, Deferred(env, lines), |Deferred(env, lines)|, t, flat0 + t, flat)
    ensures lines[i].key in flat && flat[lines[i].key] == FinalValue(env, lines[i], t)
  {
    var x := DeferredFind(env, lines, i);
    KeyOfLine(env, lines, i, x);
    if !Choose(env, lines[i]).Defer? {
      assert lines[i].key in flat0 && lines[i].key !in t;
      assert (flat0 + t)[lines[i].key] == flat0[lines[i].key];
    }
  }

  /** What the three stages leave is what the run yields. */
  lemma {:induction false} FlatComposes(env: Env, lines: seq<Line>, t: Translations, flat0: map<string, string>, flat: map<string, string>)
    requires Distinct(lines) && t.Keys <= BT.Keys(Deferred(env, lines))
    requires FlatUpTo(lines, Choices(env, lines), |lines|, flat0)
    requires FilledFlat(env, Deferred(env, lines), |Deferred(env, lines)|, t, flat0 + t, flat)
    ensures flat == FinalFlat(env, lines, t)
  {
    forall i | 0 <= i < |lines|
      ensures lines[i].key in flat && flat[lines[i].key] == FinalValue(env, lines[i], t)
    {
      LineComposes(env, lines, t, flat0, flat, i);
    }
    KeysCompose(env, lines, t, flat0, flat);
    FlatIsUnique(env, lines, t, flat);
  }

  lemma {:induction false} KeysCompose(env: Env, lines: seq<Line>, t: Translations, flat0: map<string, string>, flat: map<string, string>)
    requires Distinct(lines) && t.Keys <= BT.Keys(Deferred(env, lines))
    requires FlatUpTo(lines, Choices(env, lines), |lines|, flat0)
    requires FilledFlat(env, Deferred(env, lines), |Deferred(env, lines)|, t, flat0 + t, flat)
    ensures flat.Keys <= KeySet(lines)
  {
    var d := Deferred(env, lines);
    assert d[..|d|] == d;
    DeferredKeysAreLines(env, lines);
    assert ResolvedKeys(lines, Choices(env, lines), |lines|) <= KeySet(lines);
  }

  lemma {:induction false} FlatIsUnique(env: Env, lines: seq<Line>, t: Translations, flat: map<string, string>)
    requires Distinct(lines) && flat.Keys <= KeySet(lines)
    requires forall i :: 0 <= i < |lines| ==> lines[i].key in flat && flat[lines[i].key] == FinalValue(env, lines[i], t)
    ensures flat == FinalFlat(env, lines, t)
  {
    FlatHolds(env, lines, t);
    assert flat.Keys == KeySet(lines);
    forall k | k in flat
      ensures flat[k] == FinalFlat(env, lines, t)[k]
    {
      var i :| 0 <= i < |lines| && lines[i].key == k;
    }
  }

  lemma {:induction false} FallbacksCompose(env: Env, lines: seq<Line>, t: Translations)
    requires Distinct(lines)
    ensures KeptFallbacks(lines, Choices(env, lines), |lines|) + NewFallbacks(env, Deferred(env, lines), |Deferred(env, lines)|, t)
            == FallbackKeys(env, lines, t)
  {
    var d := Deferred(env, lines);
    forall i | 0 <= i < |lines| && FallsBack(env, lines[i], t) && Choose(env, lines[i]).Defer?
      ensures lines[i].key in NewFallbacks(env, d, |d|, t)
    {
      var x := DeferredFind(env, lines, i);
      assert d[x].key == lines[i].key;
    }
    forall k | k in NewFallbacks(env, d, |d|, t)
      ensures k in FallbackKeys(env, lines, t)
    {
      var x :| 0 <= x < |d| && DeferredFallsBack(env, d[x].key, t) && d[x].key == k;
      DeferredAre(env, lines);
      assert d[x] in d;
    }
  }

  lemma {:induction false} DeferredKeysAreLines(env: Env, lines: seq<Line>)
    requires Distinct(lines)
    ensures BT.Keys(Deferred(env, lines)) <= KeySet(lines)
  {
    var d := Deferred(env, lines);
    DeferredAre(env, lines);
    forall x | 0 <= x < |d|
      ensures d[x].key in KeySet(lines)
    {
      assert d[x] in d;
    }
  }

  /** A key of a line that is not deferred is the key of no deferred item. */
  lemma {:induction false} KeyOfLine(env: Env, lines: seq<Line>, i: nat, x: nat)
    requires Distinct(lines) && i < |lines|
    requires x < |Deferred(env, lines)| <==> Choose(env, lines[i]).Defer?
    requires x < |Deferred(env, lines)| ==> Deferred(env, lines)[x] == ItemOf(env.cfg, lines[i])
    ensures forall y :: 0 <= y < |Deferred(env, lines)| && Deferred(env, lines)[y].key == lines[i].key ==> y == x
    ensures lines[i].key in ResolvedKeys(lines, Choices(env, lines), |lines|) <==> !Choose(env, lines[i]).Defer?
    ensures lines[i].key in KeptFallbacks(lines, Choices(env, lines), |lines|) <==>
              Choose(env, lines[i]).Keep? && Choose(env, lines[i]).fallback
    ensures lines[i].key in BT.Keys(Deferred(env, lines)) <==> Choose(env, lines[i]).Defer?
  {
    var d := Deferred(env, lines);
    DeferredAre(env, lines);
    forall y | 0 <= y < |d| && d[y].key == lines[i].key
      ensures y == x
    {
      assert d[y] in d;
      var j :| 0 <= j < |lines| && Choose(env, lines[j]).Defer? && d[y] == ItemOf(env.cfg, lines[j]);
      assert i == j;
    }
    if Choose(env, lines[i]).Defer? {
      assert d[x].key == lines[i].key;
    }
  }

  lemma {:induction false} NothingStored(cfg: Config, tm: Memory, items: seq<Item>, now: string)
    ensures TranslatedMemory(cfg, tm, items, map[], now) == tm
  {
    if items == [] {
    } else {
      NothingStored(cfg, tm, items[..|items| - 1], now);
    }
  }

  /** What the provider stage leaves for the fallback stage. */
  lemma {:induction false} StageFacts(env: Env, lines: seq<Line>, t: Translations, flat0: map<string, string>)
    requires Distinct(lines) && FlatUpTo(lines, Choices(env, lines), |lines|, flat0)
    requires if env.cfg.allowTranslate then
               t.Keys == BT.Keys(Deferred(env, lines)) && forall k :: k in t ==> !Blank(t[k])
             else t == map[]
    ensures Completed(env, lines, t)
    ensures Served(Deferred(env, lines), flat0 + t, t)
  {
    if env.cfg.allowTranslate {
      ProviderCompletes(env, lines, t);
    }
    var d := Deferred(env, lines);
    DeferredAre(env, lines);
    forall i | 0 <= i < |d|
      ensures d[i].key !in flat0
    {
      assert d[i] in d;
      var j :| 0 <= j < |lines| && Choose(env, lines[j]).Defer? && d[i] == ItemOf(env.cfg, lines[j]);
    }
  }

  /** `isProviderAuthError`. */
  predicate IsProviderAuthError(message: string) {
    var m := seq(|message|, i requires 0 <= i < |message| => BT.Lower(message[i]));
    Occurs("401", m) || Occurs("authentication_error", m) || Occurs("incorrect api key", m) || Occurs("invalid x-api-key", m)
  }

  datatype Options = Options(checkOnly: bool, write: bool, authOptional: bool, budget: int)

  datatype Outcome =
    | Synced(changed: bool, wrote: bool, next: Files)
    | AuthSkipped                    // the provider refused the credentials and that is tolerated
    | Failed(reason: string)         // the provider gave up, or a placeholder was lost

  /** `assertPlaceholderParity`: translated text names the same placeholders. */
  ghost predicate Parity(placeholders: string -> seq<string>, lines: seq<Line>, flat: map<string, string>) {
    forall i :: 0 <= i < |lines| && lines[i].key in flat ==> placeholders(lines[i].text) == placeholders(flat[lines[i].key])
  }

  method CheckParity(placeholders: string -> seq<string>, lines: seq<Line>, flat: map<string, string>) returns (ok: bool)
    requires forall i :: 0 <= i < |lines| ==> lines[i].key in flat
    ensures ok <==> Parity(placeholders, lines, flat)
  {
    for i := 0 to |lines|
      invariant Parity(placeholders, lines[..i], flat)
    {
      if placeholders(lines[i].text) != placeholders(flat[lines[i].key]) {
        return false;
      }
    }
    assert lines[..|lines|] == lines;
    return true;
  }

  /** The provider answers all that is asked of it, from prompt n on. */
  ghost predicate ProviderServes(env: Env, lines: seq<Line>, budget: int, script: nat -> BT.Attempt, n: nat) {
    env.cfg.allowTranslate ==> BT.BatchesServed(Greedy(Deferred(env, lines), budget, LOOP_CHARGE), script, n)
  }

  /** It does if every prompt is answered in full. */
  lemma {:induction false} FullAnswersServe(env: Env, lines: seq<Line>, budget: int, script: nat -> BT.Attempt, n: nat)
    requires forall k: nat :: n <= k ==> BT.CompleteReply(Deferred(env, lines), script(k))
    ensures ProviderServes(env, lines, budget, script, n)
  {
    var pending := Deferred(env, lines);
    var batches := Greedy(pending, budget, LOOP_CHARGE);
    GreedyIsPartition(pending, budget, LOOP_CHARGE);
    forall k: nat, b: nat | n <= k && b < |batches|
      ensures BT.CompleteReply(batches[b], script(k))
    {
      CompleteForBatch(batches, b, script(k));
    }
    BT.AnswersServe(batches, script, n);
  }

  lemma {:induction false} CompleteForBatch(batches: seq<seq<Item>>, b: nat, a: BT.Attempt)
    requires b < |batches| && BT.CompleteReply(Concat(batches), a)
    ensures BT.CompleteReply(batches[b], a)
  {
    ConcatAround(batches, b);
    var all, at := Concat(batches), |Concat(batches[..b])|;
    forall i | 0 <= i < |batches[b]|
      ensures BT.Usable(batches[b][i], a.fields)
    {
      assert batches[b][i] == all[at + i];
    }
  }

  /** The resolution loop, the provider and the fallback loop. */
  method RunStages(env: Env, lines: seq<Line>, provider: BT.Provider, budget: int, now: string)
    returns (failure: Option<string>, flat: map<string, string>, fallback: set<string>, tm: Memory, ghost t: Translations)
    requires Distinct(lines) && Unique(env.tm) && !provider.tainted
    modifies provider
    ensures failure.None? ==>
              && Completed(env, lines, t)
              && flat == FinalFlat(env, lines, t)
              && fallback == FallbackKeys(env, lines, t)
              && tm == FinalMemory(env, lines, t, now)
    ensures failure.None? <==> ProviderServes(env, lines, budget, provider.script, old(provider.asked))
    ensures failure.None? ==> AllAnswered(t, provider.script, old(provider.asked), provider.asked)
    ensures failure.Some? ==> LastPromptError(Deferred(env, lines), budget, provider.script, provider.asked, failure.value)
    ensures !env.cfg.allowTranslate || Deferred(env, lines) == [] ==> provider.asked == old(provider.asked) && failure.None?
  {
    var pending, fallbackKeys;
    flat, pending, fallbackKeys, tm := Resolve(env, lines);
    ghost var flat0 := flat;
    assert lines[..|lines|] == lines;
    DeferredAre(env, lines);
    t, failure, fallback := map[], None, {};
    NothingStored(env.cfg, tm, pending, now);
    assert BT.Keys([]) == {} && flat0 + t == flat0;
    if env.cfg.allowTranslate && |pending| > 0 {
      failure, flat, tm, t := TranslatePending(env.cfg, provider, pending, budget, flat, tm, now);
      if failure.Some? {
        return;
      }
    }
    StageFacts(env, lines, t, flat0);
    flat, fallbackKeys := FillFallbacks(env, pending, flat, fallbackKeys, t);
    FlatComposes(env, lines, t, flat0, flat);
    FallbacksCompose(env, lines, t);
    fallback := set k | k in fallbackKeys;
  }

  /** The parity check, the metadata and the comparison with what is on disk. */
  method Conclude(cfg: Config, source: Source, files: Files, flat: map<string, string>, fallback: set<string>, tm: Memory,
                  options: Options, placeholders: string -> seq<string>, now: string)
    returns (outcome: Outcome)
    requires flat.Keys == KeySet(source.lines)
    ensures !outcome.AuthSkipped? && (outcome.Synced? <==> Parity(placeholders, source.lines, flat))
    ensures !outcome.Synced? ==> outcome == Failed("placeholder mismatch")
    ensures outcome.Synced? ==>
              && outcome.next == Files(flat, Some(NextMeta(cfg, source, files.meta, fallback, now)), tm)
              && (outcome.changed <==> !Wrote(outcome.next, files))
              && (outcome.wrote <==> outcome.changed && options.write && !options.checkOnly)
  {
    assert forall i :: 0 <= i < |source.lines| ==> source.lines[i].key in KeySet(source.lines);
    var ok := CheckParity(placeholders, source.lines, flat);
    if !ok {
      return Failed("placeholder mismatch");
    }
    var next := Files(flat, Some(NextMeta(cfg, source, files.meta, fallback, now)), tm);
    var changed := !(files.locale == next.locale && files.meta == next.meta && multiset(files.memory) == multiset(next.memory));
    outcome := Synced(changed, changed && options.write && !options.checkOnly, next);
  }

  /** `syncLocale`. A run that is not stopped by the provider or by a lost
      placeholder yields `NextFiles` for translations t that make it Completed, all of
      them the provider's own, and every value comes from the first source that
      serves; the files are rewritten only if that is asked for and something differs.
      It is stopped exactly if the provider does not serve it, with the error of the
      last prompt, or a placeholder is lost; and the provider is asked only when a
      key is deferred. */
  method SyncLocale(cfg: Config, source: Source, files: Files, provider: BT.Provider, options: Options,
                    placeholders: string -> seq<string>, now: string)
    returns (outcome: Outcome, ghost t: Translations)
    requires Distinct(source.lines) && !provider.tainted
    modifies provider
    ensures outcome.Synced? ==>
              && Completed(EnvOf(cfg, files), source.lines, t)
              && outcome.next == NextFiles(cfg, source, files, t, now)
              && Parity(placeholders, source.lines, outcome.next.locale)
              && (outcome.changed <==> !Wrote(outcome.next, files))
              && (outcome.wrote <==> outcome.changed && options.write && !options.checkOnly)
              && AllFromSources(cfg, source, files, t, outcome.next)
              && AllAnswered(t, provider.script, old(provider.asked), provider.asked)
    ensures if ProviderServes(EnvOf(cfg, files), source.lines, options.budget, provider.script, old(provider.asked)) then
              && Completed(EnvOf(cfg, files), source.lines, t)
              && (if Parity(placeholders, source.lines, NextFiles(cfg, source, files, t, now).locale) then outcome.Synced?
                  else outcome == Failed("placeholder mismatch"))
            else
              exists message :: LastPromptError(Deferred(EnvOf(cfg, files), source.lines), options.budget, provider.script, provider.asked, message)
                                && outcome == if options.authOptional && IsProviderAuthError(message) then AuthSkipped else Failed(message)
    ensures !cfg.allowTranslate || Deferred(EnvOf(cfg, files), source.lines) == [] ==>
              && provider.asked == old(provider.asked)
              && !outcome.AuthSkipped?
              && Completed(EnvOf(cfg, files), source.lines, t)
              && (outcome.Failed? ==> !Parity(placeholders, source.lines, NextFiles(cfg, source, files, t, now).locale))
  {
    var loaded := LoadTranslationMemory(files.memory);
    var byText := BuildTranslationMemoryByTextHash(loaded, cfg.locale);
    var env := Env(cfg, loaded, byText, files.locale, if files.meta.Some? then files.meta.value.fallbackKeys else {});
    assert env == EnvOf(cfg, files);
    EnvIsSound(cfg, files);
    var failure, flat, fallback, tm;
    failure, flat, fallback, tm, t := RunStages(env, source.lines, provider, options.budget, now);
    if failure.Some? {
      if options.authOptional && IsProviderAuthError(failure.value) {
        return AuthSkipped, t;
      }
      return Failed(failure.value), t;
    }
    FlatHolds(env, source.lines, t);
    ValuesComeInOrder(cfg, source, files, t, now);
    outcome := Conclude(cfg, source, files, flat, fallback, tm, options, placeholders, now);
  }

  lemma {:induction false} NothingToTranslate(env: Env, lines: seq<Line>, t: Translations)
    requires Distinct(lines) && Deferred(env, lines) == [] && Completed(env, lines, t)
    ensures t == map[]
  {
    DeferredAre(env, lines);
    assert forall i :: 0 <= i < |lines| ==> !Choose(env, lines[i]).Defer?;
    assert forall k :: k in t ==> k in KeySet(lines);
    assert t.Keys == {};
  }

  /** A run right after one that completed and wrote: nothing is asked, nothing
      differs, nothing is written, whatever the clock says. */
  method SyncAgain(r: Rerun, provider: BT.Provider, options: Options, placeholders: string -> seq<string>, now: string)
    returns (outcome: Outcome)
    requires r.Valid() && Parity(placeholders, r.source.lines, r.files'.locale) && !provider.tainted
    modifies provider
    ensures outcome == Synced(false, false, r.files')
    ensures provider.asked == old(provider.asked)
  {
    SecondRunChangesNothing(r, now);
    ghost var t;
    outcome, t := SyncLocale(r.again, r.source, r.files', provider, options, placeholders, now);
    assert t == map[] by { NothingToTranslate(EnvOf(r.again, r.files'), r.source.lines, t); }
  }
}
