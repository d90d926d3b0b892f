/**
 Where every value of a completed `syncLocale` run comes from (scripts/control-ui-i18n.ts),
 said of the files and the result alone: the segment's line in the translation memory,
 else an entry for the same text, else the existing value, else the provider's
 translation, else the English text.
 */
module SourceOrder {
  import opened Common
  import opened TranslationMemory
  import opened LocaleSync

  /** The key fell back in the run before. */
  predicate FellBack(files: Files, key: string) {
    files.meta.Some? && key in files.meta.value.fallbackKeys
  }

  /** A provider run does not keep what fell back before. */
  predicate Refreshes(cfg: Config, files: Files, key: string) {
    cfg.allowTranslate && FellBack(files, key)
  }

  /** Line j of the memory file is the one that counts for the segment of a source line. */
  ghost predicate SegmentLine(cfg: Config, files: Files, line: Line, j: nat) {
    LastKept(files.memory, Segment(line.key, line.textHash, cfg.locale), j)
  }

  ghost predicate InSegments(cfg: Config, files: Files, line: Line) {
    exists j: nat :: SegmentLine(cfg, files, line, j)
  }

  /** Entry x of the loaded memory is the one that counts for the text of a source line. */
  ghost predicate TextEntry(cfg: Config, files: Files, line: Line, x: nat) {
    LastIndexed(Load(files.memory), cfg.locale, line.textHash, x)
  }

  ghost predicate InTexts(cfg: Config, files: Files, line: Line) {
    exists x: nat :: TextEntry(cfg, files, line, x)
  }

  /** The value of a key and whether it falls back, by the first source that serves. */
  ghost predicate FromSources(cfg: Config, files: Files, line: Line, t: Translations, value: string, fallsBack: bool) {
    if InSegments(cfg, files, line) && !Refreshes(cfg, files, line.key) then
      && (exists j: nat :: SegmentLine(cfg, files, line, j) && value == files.memory[j].translated)
      && (fallsBack <==> FellBack(files, line.key))
    else if InTexts(cfg, files, line) && (FellBack(files, line.key) || line.key !in files.locale) then
      && (exists x: nat :: TextEntry(cfg, files, line, x) && value == Load(files.memory)[x].translated)
      && !fallsBack
    else if line.key in files.locale && !Refreshes(cfg, files, line.key) then
      value == files.locale[line.key] && (fallsBack <==> FellBack(files, line.key))
    else if cfg.allowTranslate then
      line.key in t && value == t[line.key] && !fallsBack
    else
      value == line.text && fallsBack
  }

  /** Every key of the files a run wants gets its value and its fallback state so. */
  ghost predicate AllFromSources(cfg: Config, source: Source, files: Files, t: Translations, next: Files) {
    forall i :: 0 <= i < |source.lines| ==>
      var line := source.lines[i];
      && line.key in next.locale && next.meta.Some?
      && FromSources(cfg, files, line, t, next.locale[line.key], line.key in next.meta.value.fallbackKeys)
  }

  // ------------------------------------------------------------------------- lookups

  /** What a lookup finds is the translation of the line that counts. */
  lemma {:induction false} FoundLine(lines: seq<Entry>, k: CacheKey) returns (j: nat)
    requires Get(Load(lines), k).Some?
    ensures LastKept(lines, k, j) && Get(Load(lines), k) == Some(lines[j])
    decreases |lines|
  {
    var n := |lines| - 1;
    LoadStep(lines, k);
    if Kept(lines[n]) && lines[n].cacheKey == k {
      j := n;
    } else {
      j := FoundLine(lines[..n], k);
    }
  }

  lemma {:induction false} SegmentLookup(cfg: Config, files: Files, line: Line)
    ensures var found := Get(Load(files.memory), Segment(line.key, line.textHash, cfg.locale));
            && (found.Some? <==> InSegments(cfg, files, line))
            && (found.Some? ==> exists j: nat :: SegmentLine(cfg, files, line, j) && found == Some(files.memory[j]))
  {
    var k := Segment(line.key, line.textHash, cfg.locale);
    if Get(Load(files.memory), k).Some? {
      var j := FoundLine(files.memory, k);
      assert SegmentLine(cfg, files, line, j);
    }
    if j: nat :| SegmentLine(cfg, files, line, j) {
      LoadFindsLast(files.memory, k, j);
    }
  }

  lemma {:induction false} FoundEntry(tm: Memory, locale: string, h: string) returns (x: nat)
    requires h in ByTextHash(tm, locale)
    ensures LastIndexed(tm, locale, h, x) && ByTextHash(tm, locale)[h] == tm[x]
    decreases |tm|
  {
    var n := |tm| - 1;
    if Indexed(tm[n], locale) && tm[n].textHash == h {
      x := n;
    } else {
      x := FoundEntry(tm[..n], locale, h);
    }
  }

  lemma {:induction false} TextLookup(cfg: Config, files: Files, line: Line)
    ensures var index := ByTextHash(Load(files.memory), cfg.locale);
            && (line.textHash in index <==> InTexts(cfg, files, line))
            && (line.textHash in index ==>
                  exists x: nat :: TextEntry(cfg, files, line, x) && index[line.textHash] == Load(files.memory)[x])
  {
    var tm := Load(files.memory);
    if line.textHash in ByTextHash(tm, cfg.locale) {
      var x := FoundEntry(tm, cfg.locale, line.textHash);
      assert TextEntry(cfg, files, line, x);
    }
    if x: nat :| TextEntry(cfg, files, line, x) {
      LastIndexedWins(tm, cfg.locale, line.textHash, x);
    }
  }

  // ------------------------------------------------------------------------ the theorem

  lemma {:induction false} LineFromSources(cfg: Config, files: Files, line: Line, t: Translations)
    requires if cfg.allowTranslate then line.key in t <==> Choose(EnvOf(cfg, files), line).Defer? else t == map[]
    ensures var env := EnvOf(cfg, files);
            FromSources(cfg, files, line, t, FinalValue(env, line, t), FallsBack(env, line, t))
  {
    SegmentLookup(cfg, files, line);
    TextLookup(cfg, files, line);
  }

  /** The order of the sources, for every key of every completed run. */
  lemma {:induction false} ValuesComeInOrder(cfg: Config, source: Source, files: Files, t: Translations, now: string)
    requires Distinct(source.lines) && Completed(EnvOf(cfg, files), source.lines, t)
    ensures AllFromSources(cfg, source, files, t, NextFiles(cfg, source, files, t, now))
  {
    var env, next := EnvOf(cfg, files), NextFiles(cfg, source, files, t, now);
    FlatHolds(env, source.lines, t);
    forall i | 0 <= i < |source.lines|
      ensures var line := source.lines[i];
              && line.key in next.locale && next.meta.Some?
              && FromSources(cfg, files, line, t, next.locale[line.key], line.key in next.meta.value.fallbackKeys)
    {
      FallbackHolds(env, source.lines, t, i);
      LineFromSources(cfg, files, source.lines[i], t);
      FallbacksOfNext(cfg, source, files, t, now);
    }
  }

  lemma {:induction false} FallbacksOfNext(cfg: Config, source: Source, files: Files, t: Translations, now: string)
    requires Distinct(source.lines)
    ensures NextFiles(cfg, source, files, t, now).meta.Some?
    ensures NextFiles(cfg, source, files, t, now).meta.value.fallbackKeys == FallbackKeys(EnvOf(cfg, files), source.lines, t)
  {
  }

  /** No other value and no other state could be meant. */
  lemma {:induction false} OneValue(cfg: Config, files: Files, line: Line, t: Translations, v: string, f: bool, v': string, f': bool)
    ensures FromSources(cfg, files, line, t, v, f) && FromSources(cfg, files, line, t, v', f') ==> v == v' && f == f'
  {
    forall j: nat, j': nat | SegmentLine(cfg, files, line, j) && SegmentLine(cfg, files, line, j')
      ensures j == j'
    {
      OneLast(j, j', files.memory, Segment(line.key, line.textHash, cfg.locale));
    }
    forall x: nat, x': nat | TextEntry(cfg, files, line, x) && TextEntry(cfg, files, line, x')
      ensures x == x'
    {
      OneLastIndexed(x, x', Load(files.memory), cfg.locale, line.textHash);
    }
  }

  lemma {:induction false} OneLastIndexed(x: nat, x': nat, tm: Memory, locale: string, h: string)
    requires LastIndexed(tm, locale, h, x) && LastIndexed(tm, locale, h, x')
    ensures x == x'
  {
  }

  lemma {:induction false} OneLast(j: nat, j': nat, lines: seq<Entry>, k: CacheKey)
    requires LastKept(lines, k, j) && LastKept(lines, k, j')
    ensures j == j'
  {
  }

  // ------------------------------------------------------------- memory and metadata

  function SegmentOf(cfg: Config, line: Line): CacheKey {
    Segment(line.key, line.textHash, cfg.locale)
  }

  /** The entry is that of another segment for the same text, filed under this one. */
  predicate CopyOf(e: Entry, from: Entry, cfg: Config, line: Line) {
    && e.cacheKey == SegmentOf(cfg, line) && e.segmentId == line.key && e.sourcePath == cfg.sourcePath
    && e.model == from.model && e.provider == from.provider && e.srcLang == from.srcLang && e.text == from.text
    && e.textHash == from.textHash && e.targetLocale == from.targetLocale && e.translated == from.translated
    && e.updatedAt == from.updatedAt
  }

  /** The entry is a new one for a value of this run's provider. */
  predicate NewEntry(e: Entry, cfg: Config, line: Line, value: string, now: string) {
    && e.cacheKey == SegmentOf(cfg, line) && e.segmentId == line.key && e.sourcePath == cfg.sourcePath
    && e.model == cfg.model && e.provider == cfg.provider && e.srcLang == SOURCE_LOCALE && e.text == line.text
    && e.textHash == line.textHash && e.targetLocale == cfg.locale && e.translated == value && e.updatedAt == now
  }

  /** What the memory holds for the segment of a source line after the run. */
  ghost predicate Remembered(cfg: Config, files: Files, line: Line, t: Translations, now: string, e: Option<Entry>) {
    if InSegments(cfg, files, line) && !Refreshes(cfg, files, line.key) then
      exists j: nat :: SegmentLine(cfg, files, line, j) && e == Some(files.memory[j])
    else if InTexts(cfg, files, line) && (FellBack(files, line.key) || line.key !in files.locale) then
      e.Some? && exists x: nat :: TextEntry(cfg, files, line, x) && CopyOf(e.value, Load(files.memory)[x], cfg, line)
    else if line.key in files.locale && !Refreshes(cfg, files, line.key) then e == None
    else if cfg.allowTranslate then e.Some? && line.key in t && NewEntry(e.value, cfg, line, t[line.key], now)
    else e == None
  }

  lemma {:induction false} LineIsRemembered(cfg: Config, files: Files, line: Line, t: Translations, now: string)
    requires if cfg.allowTranslate then line.key in t <==> Choose(EnvOf(cfg, files), line).Defer? else t == map[]
    ensures Remembered(cfg, files, line, t, now, EntryAfter(EnvOf(cfg, files), line, t, now))
  {
    SegmentLookup(cfg, files, line);
    TextLookup(cfg, files, line);
  }

  /** After a completed run the memory holds, for every source line, what its value came
      with; and for every other segment what it held before. */
  lemma {:induction false} MemoryIsExact(cfg: Config, source: Source, files: Files, t: Translations, now: string, k: CacheKey)
    requires Distinct(source.lines) && Completed(EnvOf(cfg, files), source.lines, t)
    ensures var memory := NextFiles(cfg, source, files, t, now).memory;
            && (forall i :: 0 <= i < |source.lines| && SegmentOf(cfg, source.lines[i]) == k ==>
                  Remembered(cfg, files, source.lines[i], t, now, Get(memory, k)))
            && ((forall i :: 0 <= i < |source.lines| ==> SegmentOf(cfg, source.lines[i]) != k) ==>
                  Get(memory, k) == Get(Load(files.memory), k))
  {
    var env, lines := EnvOf(cfg, files), source.lines;
    EnvIsSound(cfg, files);
    forall i | 0 <= i < |lines| && SegmentOf(cfg, lines[i]) == k
      ensures Remembered(cfg, files, lines[i], t, now, Get(FinalMemory(env, lines, t, now), k))
    {
      MemoryHolds(env, lines, t, now, i);
      LineIsRemembered(cfg, files, lines[i], t, now);
    }
    if forall i :: 0 <= i < |lines| ==> SegmentOf(cfg, lines[i]) != k {
      OtherSegment(env, lines, t, now, k);
    }
  }

  lemma {:induction false} OtherSegment(env: Env, lines: seq<Line>, t: Translations, now: string, k: CacheKey)
    requires Distinct(lines) && Sound(env) && NoLine(env, lines, k)
    ensures Get(FinalMemory(env, lines, t, now), k) == Get(env.tm, k)
  {
    ResolvedIsUnique(env, lines);
    ResolvedElsewhere(env, lines, k);
    DeferredAre(env, lines);
    var d := Deferred(env, lines);
    forall y | 0 <= y < |d|
      ensures d[y].cacheKey != k
    {
      assert d[y] in d;
      var i :| 0 <= i < |lines| && Choose(env, lines[i]).Defer? && d[y] == ItemOf(env.cfg, lines[i]);
      assert CacheKeyOf(env.cfg, lines[i]) != k;
    }
    TranslatedLookup(env.cfg, ResolvedMemory(env, lines), d, t, now, k);
  }

  /** All that the metadata says, the time aside. */
  predicate SameButTime(a: Meta, b: Meta) {
    && a.fallbackKeys == b.fallbackKeys && a.locale == b.locale && a.model == b.model && a.provider == b.provider
    && a.sourceHash == b.sourceHash && a.totalKeys == b.totalKeys && a.translatedKeys == b.translatedKeys
    && a.workflow == b.workflow
  }

  /** The metadata describes the run: a run without a provider keeps the names of the last
      one, and the time is that of the last run in which anything else changed. */
  lemma {:induction false} MetadataIsExact(cfg: Config, source: Source, files: Files, t: Translations, now: string)
    requires Distinct(source.lines)
    ensures NextFiles(cfg, source, files, t, now).meta.Some?
    ensures var meta := NextFiles(cfg, source, files, t, now).meta.value;
            && meta.locale == cfg.locale && meta.sourceHash == source.hash && meta.workflow == CONTROL_UI_I18N_WORKFLOW
            && meta.totalKeys == |source.lines| && meta.translatedKeys == |source.lines| - |meta.fallbackKeys|
            && (cfg.allowTranslate ==> meta.provider == cfg.provider && meta.model == cfg.model)
            && (!cfg.allowTranslate ==> if files.meta.Some? then meta.provider == files.meta.value.provider && meta.model == files.meta.value.model
                                        else meta.provider == meta.model == "")
            && meta.generatedAt == if files.meta.Some? && SameButTime(files.meta.value, meta) then files.meta.value.generatedAt else now
  {
  }
}
