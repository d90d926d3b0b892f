/**
 One run of `syncLocale` (scripts/control-ui-i18n.ts): every source key is
 resolved from the segment cache, the text-hash cache, the existing locale file,
 the provider or the English text, in that order of preference.

 This module defines what a run computes and proves what two runs in a row do;
 module LocaleSyncLoop has the loops and proves that they compute it.
 */
module LocaleSync {
  import opened Common
  import opened TranslationMemory
  import opened BatchPlanner

  const CONTROL_UI_I18N_WORKFLOW: nat := 1
  const SOURCE_LOCALE := "en"

  datatype Config = Config(locale: string, sourcePath: string, provider: string, model: string, allowTranslate: bool, force: bool)

  /** One entry of the flattened source map; textHash is `hashText(text)`. */
  datatype Line = Line(key: string, text: string, textHash: string)

  /** The source locale: its entries in Map order, and the hash of its file. */
  datatype Source = Source(lines: seq<Line>, hash: string)

  /** The sorted fallback list is kept as the set it lists. */
  datatype Meta = Meta(
    fallbackKeys: set<string>, generatedAt: string, locale: string, model: string, provider: string,
    sourceHash: string, totalKeys: int, translatedKeys: int, workflow: nat)

  /** The files of one locale: the flattened locale module, the metadata, and the
      lines of the translation memory in file order. */
  datatype Files = Files(locale: map<string, string>, meta: Option<Meta>, memory: seq<Entry>)

  /** What the resolution loop reads. */
  datatype Env = Env(
    cfg: Config, tm: Memory, byText: map<string, Entry>, existing: map<string, string>, previousFallback: set<string>)

  function EnvOf(cfg: Config, files: Files): Env {
    var tm := Load(files.memory);
    Env(cfg, tm, ByTextHash(tm, cfg.locale), files.locale,
        if files.meta.Some? then files.meta.value.fallbackKeys else {})
  }

  /** Source keys are the keys of a Map. */
  ghost predicate Distinct(lines: seq<Line>) {
    forall i, j :: 0 <= i < j < |lines| ==> lines[i].key != lines[j].key
  }

  function KeySet(lines: seq<Line>): set<string> {
    set i | 0 <= i < |lines| :: lines[i].key
  }

  // ------------------------------------------------- resolution of one key

  datatype Choice =
    | Keep(text: string, fallback: bool)   // the segment cache or the existing file
    | Copy(entry: Entry)                   // the text-hash cache, copied to a new segment
    | Defer                                // left to the provider or the fallback

  function CacheKeyOf(cfg: Config, line: Line): CacheKey {
    Segment(line.key, line.textHash, cfg.locale)
  }

  function Choose(env: Env, line: Line): Choice {
    var cached := Get(env.tm, CacheKeyOf(env.cfg, line));
    var refresh := line.key in env.previousFallback;
    if cached.Some? && !(env.cfg.allowTranslate && refresh) then
      Keep(cached.value.translated, refresh)
    else if line.textHash in env.byText && (refresh || line.key !in env.existing) then
      Copy(env.byText[line.textHash].(cacheKey := CacheKeyOf(env.cfg, line), segmentId := line.key,
                                      sourcePath := env.cfg.sourcePath))
    else if line.key in env.existing && !(env.cfg.allowTranslate && refresh) then
      Keep(env.existing[line.key], refresh)
    else
      Defer
  }

  function ItemOf(cfg: Config, line: Line): Item {
    Item(CacheKeyOf(cfg, line), line.key, line.text, line.textHash)
  }

  /** The items the loop leaves for the provider, in source order. */
  function Deferred(env: Env, lines: seq<Line>): seq<Item> {
    if lines == [] then [] else
    var last := lines[|lines| - 1];
    Deferred(env, lines[..|lines| - 1]) + (if Choose(env, last).Defer? then [ItemOf(env.cfg, last)] else [])
  }

  // ------------------------------------------------------- what a run yields

  type Translations = map<string, string>

  /** What a deferred key ends with: the translation, else the existing value
      unless forced, else the English text. */
  function DeferredValue(env: Env, key: string, text: string, t: Translations): string {
    if key in t then t[key]
    else if key in env.existing && !env.cfg.force then env.existing[key]
    else text
  }

  predicate DeferredFallsBack(env: Env, key: string, t: Translations) {
    key !in t && (key in env.existing && !env.cfg.force ==> key in env.previousFallback)
  }

  /** The value a key ends with, given the provider's translations. */
  function FinalValue(env: Env, line: Line, t: Translations): string {
    match Choose(env, line)
    case Keep(text, _) => text
    case Copy(e) => e.translated
    case Defer => DeferredValue(env, line.key, line.text, t)
  }

  predicate FallsBack(env: Env, line: Line, t: Translations) {
    match Choose(env, line)
    case Keep(_, fallback) => fallback
    case Copy(_) => false
    case Defer => DeferredFallsBack(env, line.key, t)
  }

  function FinalFlat(env: Env, lines: seq<Line>, t: Translations): map<string, string>
    requires Distinct(lines)
  {
    map i | 0 <= i < |lines| :: lines[i].key := FinalValue(env, lines[i], t)
  }

  function FallbackKeys(env: Env, lines: seq<Line>, t: Translations): set<string> {
    set i | 0 <= i < |lines| && FallsBack(env, lines[i], t) :: lines[i].key
  }

  /** The memory after the resolution loop. */
  function ResolvedMemory(env: Env, lines: seq<Line>): Memory {
    if lines == [] then env.tm else
    var tm := ResolvedMemory(env, lines[..|lines| - 1]);
    var c := Choose(env, lines[|lines| - 1]);
    if c.Copy? then Put(tm, c.entry) else tm
  }

  function Fresh(cfg: Config, item: Item, value: string, now: string): Entry {
    Entry(item.cacheKey, cfg.model, cfg.provider, item.key, cfg.sourcePath, SOURCE_LOCALE, item.text,
          item.textHash, cfg.locale, value, now)
  }

  /** The memory after the provider's values were stored. */
  function TranslatedMemory(cfg: Config, tm: Memory, items: seq<Item>, t: Translations, now: string): Memory {
    if items == [] then tm else
    var tm' := TranslatedMemory(cfg, tm, items[..|items| - 1], t, now);
    var item := items[|items| - 1];
    if item.key in t then Put(tm', Fresh(cfg, item, t[item.key], now)) else tm'
  }

  function FinalMemory(env: Env, lines: seq<Line>, t: Translations, now: string): Memory {
    TranslatedMemory(env.cfg, ResolvedMemory(env, lines), Deferred(env, lines), t, now)
  }

  function NextMeta(cfg: Config, source: Source, previous: Option<Meta>, fallback: set<string>, now: string): Meta {
    var provider := if cfg.allowTranslate then cfg.provider else if previous.Some? then previous.value.provider else "";
    var model := if cfg.allowTranslate then cfg.model else if previous.Some? then previous.value.model else "";
    var draft := Meta(fallback, now, cfg.locale, model, provider, source.hash, |source.lines|,
                      |source.lines| - |fallback|, CONTROL_UI_I18N_WORKFLOW);
    if previous.Some? && previous.value == draft.(generatedAt := previous.value.generatedAt)
    then previous.value else draft
  }

  /** The files a run wants to be on disk. */
  function NextFiles(cfg: Config, source: Source, files: Files, t: Translations, now: string): Files
    requires Distinct(source.lines)
  {
    var env := EnvOf(cfg, files);
    Files(FinalFlat(env, source.lines, t),
          Some(NextMeta(cfg, source, files.meta, FallbackKeys(env, source.lines, t), now)),
          FinalMemory(env, source.lines, t, now))
  }

  /** A run that reached its end: without a provider there are no translations,
      with one every deferred key got a non-blank value. */
  ghost predicate Completed(env: Env, lines: seq<Line>, t: Translations) {
    if env.cfg.allowTranslate then
      && (forall i :: 0 <= i < |lines| ==> (lines[i].key in t <==> Choose(env, lines[i]).Defer?))
      && (forall k :: k in t ==> k in KeySet(lines) && !Blank(t[k]))
    else t == map[]
  }

  // ------------------------------------------------------- what the maps hold

  lemma FlatHolds(env: Env, lines: seq<Line>, t: Translations)
    requires Distinct(lines)
    ensures FinalFlat(env, lines, t).Keys == KeySet(lines)
    ensures forall i :: 0 <= i < |lines| ==> FinalFlat(env, lines, t)[lines[i].key] == FinalValue(env, lines[i], t)
  {
  }

  lemma FallbackHolds(env: Env, lines: seq<Line>, t: Translations, i: nat)
    requires Distinct(lines) && i < |lines|
    ensures lines[i].key in FallbackKeys(env, lines, t) <==> FallsBack(env, lines[i], t)
  {
  }

  lemma {:induction false} ResolvedLookup(env: Env, lines: seq<Line>, k: CacheKey)
    requires Unique(env.tm)
    ensures Unique(ResolvedMemory(env, lines))
    ensures (forall i :: 0 <= i < |lines| ==> CacheKeyOf(env.cfg, lines[i]) != k) ==>
              Get(ResolvedMemory(env, lines), k) == Get(env.tm, k)
    ensures Distinct(lines) ==> forall i :: 0 <= i < |lines| && CacheKeyOf(env.cfg, lines[i]) == k ==>
              var c := Choose(env, lines[i]);
              Get(ResolvedMemory(env, lines), k) == if c.Copy? then Some(c.entry) else Get(env.tm, k)
    ensures forall x :: x in ResolvedMemory(env, lines) ==>
              x in env.tm || exists i :: 0 <= i < |lines| && Choose(env, lines[i]) == Copy(x)
  {
    ResolvedIsUnique(env, lines);
    if NoLine(env, lines, k) {
      ResolvedElsewhere(env, lines, k);
    }
    forall i | 0 <= i < |lines| && Distinct(lines) && CacheKeyOf(env.cfg, lines[i]) == k
      ensures Get(ResolvedMemory(env, lines), k) == Resolved(env, lines[i])
    {
      ResolvedHere(env, lines, i);
    }
    forall x | x in ResolvedMemory(env, lines)
      ensures x in env.tm || exists i :: 0 <= i < |lines| && Choose(env, lines[i]) == Copy(x)
    {
      ResolvedEntry(env, lines, x);
    }
  }

  /** No line has segment k. */
  ghost predicate NoLine(env: Env, lines: seq<Line>, k: CacheKey) {
    forall i :: 0 <= i < |lines| ==> CacheKeyOf(env.cfg, lines[i]) != k
  }

  /** The entry of a line's segment after the resolution loop. */
  function Resolved(env: Env, line: Line): Option<Entry> {
    var c := Choose(env, line);
    if c.Copy? then Some(c.entry) else Get(env.tm, CacheKeyOf(env.cfg, line))
  }

  lemma {:induction false} ResolvedIsUnique(env: Env, lines: seq<Line>)
    requires Unique(env.tm)
    ensures Unique(ResolvedMemory(env, lines))
    decreases |lines|
  {
    if lines == [] {
    } else {
      var init, c := lines[..|lines| - 1], Choose(env, lines[|lines| - 1]);
      ResolvedIsUnique(env, init);
      if c.Copy? {
        PutGet(ResolvedMemory(env, init), c.entry, c.entry.cacheKey);
      }
    }
  }

  /** What the last line does to the lookup of k. */
  lemma {:induction false} ResolvedStep(env: Env, lines: seq<Line>, k: CacheKey)
    requires Unique(env.tm) && lines != []
    ensures var last := lines[|lines| - 1];
            Get(ResolvedMemory(env, lines), k) ==
            if Choose(env, last).Copy? && CacheKeyOf(env.cfg, last) == k then Some(Choose(env, last).entry)
            else Get(ResolvedMemory(env, lines[..|lines| - 1]), k)
  {
    var init, c := lines[..|lines| - 1], Choose(env, lines[|lines| - 1]);
    ResolvedIsUnique(env, init);
    if c.Copy? {
      PutGet(ResolvedMemory(env, init), c.entry, k);
    }
  }

  lemma {:induction false} ResolvedElsewhere(env: Env, lines: seq<Line>, k: CacheKey)
    requires Unique(env.tm) && NoLine(env, lines, k)
    ensures Get(ResolvedMemory(env, lines), k) == Get(env.tm, k)
    decreases |lines|
  {
    if lines == [] {
    } else {
      ResolvedStep(env, lines, k);
      ResolvedElsewhere(env, lines[..|lines| - 1], k);
    }
  }

  lemma {:induction false} ResolvedHere(env: Env, lines: seq<Line>, i: nat)
    requires Unique(env.tm) && Distinct(lines) && i < |lines|
    ensures Get(ResolvedMemory(env, lines), CacheKeyOf(env.cfg, lines[i])) == Resolved(env, lines[i])
    decreases |lines|
  {
    var n, k := |lines| - 1, CacheKeyOf(env.cfg, lines[i]);
    var init := lines[..n];
    ResolvedStep(env, lines, k);
    if i == n {
      ResolvedElsewhere(env, init, k);
    } else {
      assert init[i] == lines[i] && Distinct(init);
      ResolvedHere(env, init, i);
    }
  }

  lemma {:induction false} ResolvedEntry(env: Env, lines: seq<Line>, x: Entry)
    requires Unique(env.tm) && x in ResolvedMemory(env, lines)
    ensures x in env.tm || exists i :: 0 <= i < |lines| && Choose(env, lines[i]) == Copy(x)
    decreases |lines|
  {
    if lines == [] {
    } else {
      var init, c := lines[..|lines| - 1], Choose(env, lines[|lines| - 1]);
      ResolvedIsUnique(env, init);
      if c.Copy? {
        PutGet(ResolvedMemory(env, init), c.entry, c.entry.cacheKey);
      }
      if x in ResolvedMemory(env, init) {
        ResolvedEntry(env, init, x);
        if i :| 0 <= i < |init| && Choose(env, init[i]) == Copy(x) {
          assert Choose(env, lines[i]) == Copy(x);
        }
      } else {
        assert Choose(env, lines[|lines| - 1]) == Copy(x);
      }
    }
  }

  lemma {:induction false} TranslatedLookup(cfg: Config, tm: Memory, items: seq<Item>, t: Translations, now: string, k: CacheKey)
    requires Unique(tm)
    ensures Unique(TranslatedMemory(cfg, tm, items, t, now))
    ensures (forall i :: 0 <= i < |items| ==> items[i].cacheKey != k || items[i].key !in t) ==>
              Get(TranslatedMemory(cfg, tm, items, t, now), k) == Get(tm, k)
    ensures DistinctItems(items) ==>
              forall i :: 0 <= i < |items| && items[i].cacheKey == k && items[i].key in t ==>
                Get(TranslatedMemory(cfg, tm, items, t, now), k) == Some(Fresh(cfg, items[i], t[items[i].key], now))
    ensures forall x :: x in TranslatedMemory(cfg, tm, items, t, now) ==>
              x in tm || exists i :: 0 <= i < |items| && items[i].key in t && x == Fresh(cfg, items[i], t[items[i].key], now)
  {
    if items == [] {
    } else {
      var init, last := items[..|items| - 1], items[|items| - 1];
      TranslatedLookup(cfg, tm, init, t, now, k);
      if last.key in t {
        PutGet(TranslatedMemory(cfg, tm, init, t, now), Fresh(cfg, last, t[last.key], now), k);
      }
      assert forall i :: 0 <= i < |init| ==> init[i] == items[i];
    }
  }

  ghost predicate DistinctItems(items: seq<Item>) {
    forall i, j :: 0 <= i < j < |items| ==> items[i].key != items[j].key && items[i].cacheKey != items[j].cacheKey
  }

  /** The deferred items are the deferred lines, each once. */
  lemma {:induction false} DeferredAre(env: Env, lines: seq<Line>)
    requires Distinct(lines)
    ensures forall i :: 0 <= i < |lines| && Choose(env, lines[i]).Defer? ==> ItemOf(env.cfg, lines[i]) in Deferred(env, lines)
    ensures forall x :: x in Deferred(env, lines) ==>
              exists i :: 0 <= i < |lines| && Choose(env, lines[i]).Defer? && x == ItemOf(env.cfg, lines[i])
    ensures DistinctItems(Deferred(env, lines))
  {
    forall i | 0 <= i < |lines| && Choose(env, lines[i]).Defer?
      ensures ItemOf(env.cfg, lines[i]) in Deferred(env, lines)
    {
      DeferredHolds(env, lines, i);
    }
    forall x | x in Deferred(env, lines)
      ensures exists i :: 0 <= i < |lines| && Choose(env, lines[i]).Defer? && x == ItemOf(env.cfg, lines[i])
    {
      var i := DeferredFrom(env, lines, x);
    }
    DeferredDiffer(env, lines);
  }

  lemma {:induction false} DeferredHolds(env: Env, lines: seq<Line>, i: nat)
    requires i < |lines| && Choose(env, lines[i]).Defer?
    ensures ItemOf(env.cfg, lines[i]) in Deferred(env, lines)
    decreases |lines|
  {
    if i == |lines| - 1 {
    } else {
      DeferredHolds(env, lines[..|lines| - 1], i);
    }
  }

  lemma {:induction false} DeferredFrom(env: Env, lines: seq<Line>, x: Item) returns (i: nat)
    requires x in Deferred(env, lines)
    ensures i < |lines| && Choose(env, lines[i]).Defer? && x == ItemOf(env.cfg, lines[i])
    decreases |lines|
  {
    var n := |lines| - 1;
    if x in Deferred(env, lines[..n]) {
      i := DeferredFrom(env, lines[..n], x);
    } else {
      i := n;
    }
  }

  lemma {:induction false} DeferredDiffer(env: Env, lines: seq<Line>)
    requires Distinct(lines)
    ensures DistinctItems(Deferred(env, lines))
    decreases |lines|
  {
    if lines == [] {
    } else {
      var n := |lines| - 1;
      var d := Deferred(env, lines[..n]);
      DeferredDiffer(env, lines[..n]);
      forall j | 0 <= j < |d|
        ensures d[j].key != lines[n].key && d[j].cacheKey != CacheKeyOf(env.cfg, lines[n])
      {
        var i := DeferredFrom(env, lines[..n], d[j]);
        assert lines[..n][i] == lines[i];
      }
    }
  }

  /** A line's own segment entry after the run. */
  function EntryAfter(env: Env, line: Line, t: Translations, now: string): Option<Entry> {
    match Choose(env, line)
    case Keep(_, _) => Get(env.tm, CacheKeyOf(env.cfg, line))
    case Copy(e) => Some(e)
    case Defer =>
      if line.key in t then Some(Fresh(env.cfg, ItemOf(env.cfg, line), t[line.key], now))
      else Get(env.tm, CacheKeyOf(env.cfg, line))
  }

  lemma {:induction false} MemoryHolds(env: Env, lines: seq<Line>, t: Translations, now: string, i: nat)
    requires Distinct(lines) && Unique(env.tm) && i < |lines|
    ensures Get(FinalMemory(env, lines, t, now), CacheKeyOf(env.cfg, lines[i])) == EntryAfter(env, lines[i], t, now)
  {
    var k := CacheKeyOf(env.cfg, lines[i]);
    var d := Deferred(env, lines);
    ResolvedLookup(env, lines, k);
    DeferredAre(env, lines);
    TranslatedLookup(env.cfg, ResolvedMemory(env, lines), d, t, now, k);
    var x := DeferredFind(env, lines, i);
    assert x < |d| ==> d[x].cacheKey == k;
  }

  /** Where line i stands among the deferred items, or past their end. */
  lemma {:induction false} DeferredFind(env: Env, lines: seq<Line>, i: nat) returns (x: nat)
    requires Distinct(lines) && i < |lines|
    ensures var d := Deferred(env, lines);
            && (x < |d| <==> Choose(env, lines[i]).Defer?)
            && (x < |d| ==> d[x] == ItemOf(env.cfg, lines[i]))
            && (forall y :: 0 <= y < |d| && d[y].cacheKey == CacheKeyOf(env.cfg, lines[i]) ==> y == x)
  {
    var d := Deferred(env, lines);
    DeferredAre(env, lines);
    if Choose(env, lines[i]).Defer? {
      x :| 0 <= x < |d| && d[x] == ItemOf(env.cfg, lines[i]);
    } else {
      x := |d|;
      forall y | 0 <= y < |d|
        ensures d[y].cacheKey != CacheKeyOf(env.cfg, lines[i])
      {
        assert d[y] in d;
        var j :| 0 <= j < |lines| && Choose(env, lines[j]).Defer? && d[y] == ItemOf(env.cfg, lines[j]);
        assert i != j;
      }
    }
  }

  /** Every entry of the final memory is an old one, a copy or a fresh one. */
  lemma {:induction false} MemoryEntries(env: Env, lines: seq<Line>, t: Translations, now: string, x: Entry)
    requires Distinct(lines) && Unique(env.tm) && x in FinalMemory(env, lines, t, now)
    ensures || x in env.tm
            || (exists i :: 0 <= i < |lines| && Choose(env, lines[i]) == Copy(x))
            || (exists item :: item in Deferred(env, lines) && item.key in t
                               && x == Fresh(env.cfg, item, t[item.key], now))
    ensures Unique(FinalMemory(env, lines, t, now))
  {
    ResolvedLookup(env, lines, x.cacheKey);
    TranslatedLookup(env.cfg, ResolvedMemory(env, lines), Deferred(env, lines), t, now, x.cacheKey);
  }

  // ------------------------------------------------------ totality and counts

  lemma {:induction false} KeyCount(lines: seq<Line>)
    requires Distinct(lines)
    ensures |KeySet(lines)| == |lines|
  {
    if lines == [] {
    } else {
      var init, last := lines[..|lines| - 1], lines[|lines| - 1];
      KeyCount(init);
      assert KeySet(lines) == KeySet(init) + {last.key} by {
        forall k | k in KeySet(lines)
          ensures k in KeySet(init) + {last.key}
        {
          var i :| 0 <= i < |lines| && lines[i].key == k;
          assert i < |init| ==> init[i].key == k;
        }
        assert forall i :: 0 <= i < |init| ==> init[i] == lines[i];
      }
      assert last.key !in KeySet(init);
    }
  }

  lemma {:induction false} FallbackCounts(env: Env, lines: seq<Line>, t: Translations)
    requires Distinct(lines) && Completed(env, lines, t)
    ensures FallbackKeys(env, lines, t) <= KeySet(lines)
    ensures |KeySet(lines) - FallbackKeys(env, lines, t)| == |lines| - |FallbackKeys(env, lines, t)|
    ensures env.cfg.allowTranslate ==> FallbackKeys(env, lines, t) == {}
  {
    KeyCount(lines);
    CountWithout(KeySet(lines), FallbackKeys(env, lines, t));
    if env.cfg.allowTranslate {
      forall i | 0 <= i < |lines|
        ensures !FallsBack(env, lines[i], t)
      {
        NotAFallback(env, lines[i], t);
      }
    }
  }

  lemma CountWithout(keys: set<string>, some: set<string>)
    requires some <= keys
    ensures |keys - some| == |keys| - |some|
  {
    assert keys == some + (keys - some);
  }

  lemma {:induction false} NotAFallback(env: Env, line: Line, t: Translations)
    requires env.cfg.allowTranslate && (line.key in t <==> Choose(env, line).Defer?)
    ensures !FallsBack(env, line, t)
  {
  }

  /** Every source key gets a value, the fallback keys are source keys, and
      translatedKeys counts the others; a completed provider run has none. */
  lemma {:induction false} CountsBalance(cfg: Config, source: Source, files: Files, t: Translations, now: string)
    requires Distinct(source.lines) && Completed(EnvOf(cfg, files), source.lines, t)
    ensures var next := NextFiles(cfg, source, files, t, now);
            var meta := next.meta.value;
            && next.locale.Keys == KeySet(source.lines)
            && meta.fallbackKeys <= next.locale.Keys
            && meta.totalKeys == |next.locale.Keys|
            && meta.translatedKeys == |next.locale.Keys - meta.fallbackKeys|
            && meta.translatedKeys + |meta.fallbackKeys| == meta.totalKeys
            && (cfg.allowTranslate ==> meta.fallbackKeys == {})
  {
    var env := EnvOf(cfg, files);
    FlatHolds(env, source.lines, t);
    KeyCount(source.lines);
    FallbackCounts(env, source.lines, t);
  }

  /** In a run that completes, the branch of the last loop that `--force` guards
      is never taken: the option changes no value and no fallback. */
  lemma {:induction false} ForceChangesNothing(env: Env, lines: seq<Line>, t: Translations)
    requires Distinct(lines) && Completed(env, lines, t)
    ensures var forced := env.(cfg := env.cfg.(force := !env.cfg.force));
            && FinalFlat(forced, lines, t) == FinalFlat(env, lines, t)
            && FallbackKeys(forced, lines, t) == FallbackKeys(env, lines, t)
  {
    var forced := env.(cfg := env.cfg.(force := !env.cfg.force));
    forall i | 0 <= i < |lines|
      ensures SameLine(forced, env, lines[i], t)
    {
      ForceChangesNoLine(env, lines[i], t);
    }
    SameFlat(forced, env, lines, t);
    SameFallbacks(forced, env, lines, t);
  }

  /** Two environments give a line the same value and the same fallback state. */
  ghost predicate SameLine(a: Env, b: Env, line: Line, t: Translations) {
    FinalValue(a, line, t) == FinalValue(b, line, t) && FallsBack(a, line, t) == FallsBack(b, line, t)
  }

  lemma {:induction false} SameFlat(a: Env, b: Env, lines: seq<Line>, t: Translations)
    requires Distinct(lines) && forall i :: 0 <= i < |lines| ==> SameLine(a, b, lines[i], t)
    ensures FinalFlat(a, lines, t) == FinalFlat(b, lines, t)
  {
    FlatHolds(a, lines, t);
    FlatHolds(b, lines, t);
  }

  lemma {:induction false} SameFallbacks(a: Env, b: Env, lines: seq<Line>, t: Translations)
    requires forall i :: 0 <= i < |lines| ==> SameLine(a, b, lines[i], t)
    ensures FallbackKeys(a, lines, t) == FallbackKeys(b, lines, t)
  {
  }

  lemma {:induction false} ForceChangesNoLine(env: Env, line: Line, t: Translations)
    requires if env.cfg.allowTranslate then line.key in t <==> Choose(env, line).Defer? else t == map[]
    ensures SameLine(env.(cfg := env.cfg.(force := !env.cfg.force)), env, line, t)
  {
    assert Choose(env.(cfg := env.cfg.(force := !env.cfg.force)), line) == Choose(env, line);
  }

  // --------------------------------------------------------------- idempotence

  /** The files hold what the run wanted; the memory file may list its entries
      in any order. */
  ghost predicate Wrote(next: Files, files: Files) {
    files.locale == next.locale && files.meta == next.meta && multiset(files.memory) == multiset(next.memory)
  }

  /** A later run on the same locale and model: if the first had a provider the
      second may have it or not, otherwise the second has none either. */
  predicate Reruns(cfg: Config, again: Config) {
    && cfg.(allowTranslate := again.allowTranslate, force := again.force) == again
    && (again.allowTranslate ==> cfg.allowTranslate)
  }

  /** Two runs in a row. */
  datatype Rerun = Rerun(cfg: Config, again: Config, source: Source, files: Files, t: Translations, now: string, files': Files)
  {
    ghost predicate Valid() {
      && Distinct(source.lines)
      && Reruns(cfg, again)
      && Completed(EnvOf(cfg, files), source.lines, t)
      && Wrote(NextFiles(cfg, source, files, t, now), files')
    }
  }

  /** Whatever the files held before, a run without a provider completes, and it can be
      repeated. */
  lemma {:induction false} EveryRunCanBeRepeated(cfg: Config, source: Source, files: Files, now: string)
    requires Distinct(source.lines) && !cfg.allowTranslate
    ensures Rerun(cfg, cfg, source, files, map[], now, NextFiles(cfg, source, files, map[], now)).Valid()
  {
  }

  /** What holds of every environment that was read from files. */
  ghost predicate Sound(env: Env) {
    && Unique(env.tm)
    && (forall x :: x in env.tm ==> Kept(x))
    && env.byText == ByTextHash(env.tm, env.cfg.locale)
  }

  /** The English text is the last resort: a key that falls back now, and did not
      before, has no cached segment, no cached text and no existing value, and there
      is no provider; its value is the source text. */
  lemma {:induction false} EnglishIsLastResort(env: Env, lines: seq<Line>, t: Translations, i: nat)
    requires Distinct(lines) && Completed(env, lines, t) && i < |lines|
    requires FallsBack(env, lines[i], t) && lines[i].key !in env.previousFallback
    ensures var line := lines[i];
            && FinalValue(env, line, t) == line.text && !env.cfg.allowTranslate
            && Get(env.tm, CacheKeyOf(env.cfg, line)).None? && line.textHash !in env.byText && line.key !in env.existing
  {
    assert lines[i].key !in t;
  }

  /** A provider refreshes every earlier fallback: its value is then a translation of
      the very same text, from the memory or fresh, and not blank. */
  lemma {:induction false} ProviderRefreshesFallbacks(env: Env, lines: seq<Line>, t: Translations, i: nat)
    requires Distinct(lines) && Sound(env) && Completed(env, lines, t) && i < |lines|
    requires env.cfg.allowTranslate && lines[i].key in env.previousFallback
    ensures var line := lines[i];
            && !FallsBack(env, line, t) && !Blank(FinalValue(env, line, t))
            && (|| (line.textHash in env.byText && FinalValue(env, line, t) == env.byText[line.textHash].translated)
                || (line.key in t && FinalValue(env, line, t) == t[line.key]))
  {
    if Choose(env, lines[i]).Copy? {
      CopiedFrom(env, lines[i]);
    }
  }

  lemma EnvIsSound(cfg: Config, files: Files)
    ensures Sound(EnvOf(cfg, files))
  {
    LoadClean(files.memory);
  }

  lemma {:induction false} CopiedFrom(env: Env, line: Line)
    requires Sound(env) && Choose(env, line).Copy?
    ensures var e := Choose(env, line).entry;
            Kept(e) && e.textHash == line.textHash && line.textHash in env.byText
  {
    ByTextHashIs(env.tm, env.cfg.locale, line.textHash);
  }

  lemma {:induction false} EntryKept(env: Env, lines: seq<Line>, t: Translations, now: string, x: Entry)
    requires Distinct(lines) && Sound(env) && Completed(env, lines, t) && x in FinalMemory(env, lines, t, now)
    ensures Kept(x)
  {
    MemoryEntries(env, lines, t, now, x);
    if x !in env.tm {
      if i :| 0 <= i < |lines| && Choose(env, lines[i]) == Copy(x) {
        CopiedFrom(env, lines[i]);
      } else {
        var item :| item in Deferred(env, lines) && item.key in t && x == Fresh(env.cfg, item, t[item.key], now);
        DeferredAre(env, lines);
      }
    }
  }

  /** The memory written by a completed run, in whatever order, is read back
      unchanged. */
  lemma {:induction false} MemoryReloads(env: Env, lines: seq<Line>, t: Translations, now: string, tm: seq<Entry>)
    requires Distinct(lines) && Sound(env) && Completed(env, lines, t)
    requires multiset(tm) == multiset(FinalMemory(env, lines, t, now))
    ensures Unique(tm) && Unique(FinalMemory(env, lines, t, now)) && Load(tm) == tm
  {
    ResolvedLookup(env, lines, Other(""));
    TranslatedLookup(env.cfg, ResolvedMemory(env, lines), Deferred(env, lines), t, now, Other(""));
    UniqueReordered(FinalMemory(env, lines, t, now), tm);
    forall i | 0 <= i < |tm|
      ensures Kept(tm[i])
    {
      assert tm[i] in multiset(tm);
      EntryKept(env, lines, t, now, tm[i]);
    }
    LoadOfClean(tm);
  }

  /** A run without a provider brings no new text hash. */
  lemma {:induction false} NoNewHashes(env: Env, lines: seq<Line>, now: string, tm: seq<Entry>, h: string)
    requires Distinct(lines) && Sound(env)
    requires multiset(tm) == multiset(FinalMemory(env, lines, map[], now))
    requires h in ByTextHash(tm, env.cfg.locale)
    ensures h in env.byText
  {
    ByTextHashIs(tm, env.cfg.locale, h);
    var x := ByTextHash(tm, env.cfg.locale)[h];
    assert x in multiset(tm);
    MemoryEntries(env, lines, map[], now, x);
    if x in env.tm {
      ByTextHashIs(env.tm, env.cfg.locale, h);
    } else {
      var i :| 0 <= i < |lines| && Choose(env, lines[i]) == Copy(x);
      CopiedFrom(env, lines[i]);
    }
  }

  /** One key on the second run, from what the first left behind for it. */
  lemma {:induction false} ChoiceStays(env: Env, env': Env, line: Line, t: Translations, now: string)
    requires Reruns(env.cfg, env'.cfg)
    requires if env.cfg.allowTranslate then line.key in t <==> Choose(env, line).Defer? else t == map[]
    requires Get(env'.tm, CacheKeyOf(env.cfg, line)) == EntryAfter(env, line, t, now)
    requires line.key in env'.existing && env'.existing[line.key] == FinalValue(env, line, t)
    requires line.key in env'.previousFallback <==> FallsBack(env, line, t)
    requires !env.cfg.allowTranslate && line.textHash in env'.byText ==> line.textHash in env.byText
    ensures Choose(env', line) == Keep(FinalValue(env, line, t), FallsBack(env, line, t))
  {
  }

  /** On the second run every key is kept, with the value and the fallback state
      that the first run gave it. */
  lemma {:induction false} SecondChoice(r: Rerun, i: nat)
    requires i < |r.source.lines|
    ensures var env, line := EnvOf(r.cfg, r.files), r.source.lines[i];
            r.Valid() ==>
              Choose(EnvOf(r.again, r.files'), line) == Keep(FinalValue(env, line, r.t), FallsBack(env, line, r.t))
  {
    if !r.Valid() {
      return;
    }
    var env, lines, line := EnvOf(r.cfg, r.files), r.source.lines, r.source.lines[i];
    assert line.key in FinalFlat(env, lines, r.t) && FinalFlat(env, lines, r.t)[line.key] == FinalValue(env, line, r.t) by {
      FlatHolds(env, lines, r.t);
    }
    FallbackHolds(env, lines, r.t, i);
    EnvIsSound(r.cfg, r.files);
    MemoryReloads(env, lines, r.t, r.now, r.files'.memory);
    assert Get(r.files'.memory, CacheKeyOf(r.cfg, line)) == EntryAfter(env, line, r.t, r.now) by {
      MemoryHolds(env, lines, r.t, r.now, i);
      GetReordered(FinalMemory(env, lines, r.t, r.now), r.files'.memory, CacheKeyOf(r.cfg, line));
    }
    if !r.cfg.allowTranslate && line.textHash in ByTextHash(r.files'.memory, r.cfg.locale) {
      NoNewHashes(env, lines, r.now, r.files'.memory, line.textHash);
    }
    ChoiceStays(env, EnvOf(r.again, r.files'), line, r.t, r.now);
  }

  lemma {:induction false} AllKept(env: Env, lines: seq<Line>)
    requires forall i :: 0 <= i < |lines| ==> Choose(env, lines[i]).Keep?
    ensures Deferred(env, lines) == [] && ResolvedMemory(env, lines) == env.tm
  {
    if lines == [] {
    } else {
      AllKept(env, lines[..|lines| - 1]);
    }
  }

  /** Keys that are kept with the values and fallback states of an earlier run
      give that run's maps. */
  lemma {:induction false} KeptMaps(env: Env, env': Env, lines: seq<Line>, t: Translations)
    requires Distinct(lines)
    requires forall i :: 0 <= i < |lines| ==>
               Choose(env', lines[i]) == Keep(FinalValue(env, lines[i], t), FallsBack(env, lines[i], t))
    ensures FinalFlat(env', lines, map[]) == FinalFlat(env, lines, t)
    ensures FallbackKeys(env', lines, map[]) == FallbackKeys(env, lines, t)
  {
    FlatHolds(env, lines, t);
    FlatHolds(env', lines, map[]);
    forall i | 0 <= i < |lines|
      ensures FinalValue(env', lines[i], map[]) == FinalValue(env, lines[i], t)
      ensures FallsBack(env', lines[i], map[]) == FallsBack(env, lines[i], t)
    {
      assert Choose(env', lines[i]).Keep?;
    }
  }

  /** Sync is idempotent: after a completed run, with or without a provider, a
      second run defers no key, so it sends no prompt, and wants exactly the
      files that are there, down to the timestamp. */
  lemma {:induction false} SecondRunChangesNothing(r: Rerun, now: string)
    requires r.Valid()
    ensures Deferred(EnvOf(r.again, r.files'), r.source.lines) == []
    ensures NextFiles(r.again, r.source, r.files', map[], now) == r.files'
  {
    var env, env', lines := EnvOf(r.cfg, r.files), EnvOf(r.again, r.files'), r.source.lines;
    forall i | 0 <= i < |lines|
      ensures Choose(env', lines[i]) == Keep(FinalValue(env, lines[i], r.t), FallsBack(env, lines[i], r.t))
    {
      SecondChoice(r, i);
    }
    AllKept(env', lines);
    KeptMaps(env, env', lines, r.t);
    EnvIsSound(r.cfg, r.files);
    MemoryReloads(env, lines, r.t, r.now, r.files'.memory);
  }
}
