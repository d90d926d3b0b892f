/**
 The translation memory of one locale (scripts/control-ui-i18n.ts): a Map from
 cache key to entry, in insertion order, as `loadTranslationMemory` fills it and
 `syncLocale` updates it, and the index by text hash built from it.
 */
module TranslationMemory {
  import opened Common

  /** The digest that names a cached segment. SHA-256 is taken to be injective on
      (key, text hash, locale) for the run's fixed workflow, provider and model;
      any other string that a file may hold is Other. */
  datatype CacheKey = Segment(key: string, textHash: string, locale: string) | Other(digest: string)

  datatype Entry = Entry(
    cacheKey: CacheKey, model: string, provider: string, segmentId: string, sourcePath: string,
    srcLang: string, text: string, textHash: string, targetLocale: string, translated: string, updatedAt: string)

  /** A Map's values in insertion order; the keys are the entries' cache keys. */
  type Memory = seq<Entry>

  ghost predicate Unique(tm: Memory) {
    forall i, j :: 0 <= i < j < |tm| ==> tm[i].cacheKey != tm[j].cacheKey
  }

  function Find(tm: Memory, k: CacheKey): (i: nat)
    ensures i <= |tm|
    ensures i < |tm| ==> tm[i].cacheKey == k
    ensures forall j :: 0 <= j < i ==> tm[j].cacheKey != k
  {
    if tm == [] || tm[0].cacheKey == k then 0 else 1 + Find(tm[1..], k)
  }

  function Get(tm: Memory, k: CacheKey): Option<Entry> {
    var i := Find(tm, k);
    if i < |tm| then Some(tm[i]) else None
  }

  /** `tm.set`: an existing key keeps its place. */
  function Put(tm: Memory, e: Entry): Memory {
    var i := Find(tm, e.cacheKey);
    if i < |tm| then tm[i := e] else tm + [e]
  }

  lemma GetIs(tm: Memory, i: nat)
    requires Unique(tm) && i < |tm|
    ensures Get(tm, tm[i].cacheKey) == Some(tm[i])
  {
  }

  lemma PutGet(tm: Memory, e: Entry, k: CacheKey)
    requires Unique(tm)
    ensures Unique(Put(tm, e))
    ensures Get(Put(tm, e), k) == if k == e.cacheKey then Some(e) else Get(tm, k)
    ensures forall x :: x in Put(tm, e) ==> x == e || x in tm
  {
    var i, tm' := Find(tm, e.cacheKey), Put(tm, e);
    var j := Find(tm, k);
    if k == e.cacheKey {
      assert tm'[i] == e;
      GetIs(tm', i);
    } else if j < |tm| {
      assert tm'[j] == tm[j];
      GetIs(tm', j);
    } else {
      assert forall x :: 0 <= x < |tm'| ==> tm'[x].cacheKey != k;
    }
  }

  /** The same entries in another order answer every lookup alike. */
  lemma GetReordered(tm: Memory, tm': Memory, k: CacheKey)
    requires Unique(tm) && Unique(tm') && multiset(tm) == multiset(tm')
    ensures Get(tm, k) == Get(tm', k)
  {
    var i := Find(tm, k);
    if i < |tm| {
      assert tm[i] in multiset(tm');
      var x :| 0 <= x < |tm'| && tm'[x] == tm[i];
      GetIs(tm', x);
    } else {
      assert forall x :: 0 <= x < |tm'| ==> tm'[x] in multiset(tm);
    }
  }

  lemma {:induction false} UniqueReordered(tm: Memory, tm': Memory)
    requires Unique(tm) && multiset(tm) == multiset(tm')
    ensures Unique(tm')
  {
    forall i, j | 0 <= i < j < |tm'|
      ensures tm'[i].cacheKey != tm'[j].cacheKey
    {
      if tm'[i].cacheKey == tm'[j].cacheKey {
        assert tm'[i] in multiset(tm) && tm'[j] in multiset(tm);
        assert tm'[i] == tm'[j];
        CountTwice(tm', i, j);
        CountOnce(tm, tm'[i]);
        assert false;
      }
    }
  }

  lemma CountTwice(s: Memory, i: nat, j: nat)
    requires i < j < |s| && s[i] == s[j]
    ensures multiset(s)[s[i]] >= 2
  {
    assert s == s[..i] + [s[i]] + s[i + 1..j] + [s[j]] + s[j + 1..];
  }

  lemma {:induction false} CountOnce(s: Memory, e: Entry)
    requires Unique(s) && e in s
    ensures multiset(s)[e] == 1
  {
    var i :| 0 <= i < |s| && s[i] == e;
    assert s == s[..i] + [e] + s[i + 1..];
    assert e !in s[..i] && e !in s[i + 1..];
  }

  /** The lines `loadTranslationMemory` keeps. */
  predicate Kept(e: Entry) {
    e.cacheKey != Other("") && !Blank(e.translated)
  }

  function Load(lines: seq<Entry>): Memory {
    if lines == [] then [] else
    var tm := Load(lines[..|lines| - 1]);
    var e := lines[|lines| - 1];
    if Kept(e) then Put(tm, e) else tm
  }

  /** What loading gives: one entry per key, all of them kept lines. */
  lemma {:induction false} LoadClean(lines: seq<Entry>)
    ensures Unique(Load(lines))
    ensures forall x :: x in Load(lines) ==> Kept(x) && x in lines
  {
    if lines == [] {
    } else {
      var init, e := lines[..|lines| - 1], lines[|lines| - 1];
      LoadClean(init);
      PutGet(Load(init), e, e.cacheKey);
    }
  }

  /** Line i is the last of the file that is kept and has key k. */
  ghost predicate LastKept(lines: seq<Entry>, k: CacheKey, i: nat) {
    && i < |lines| && Kept(lines[i]) && lines[i].cacheKey == k
    && forall j :: i < j < |lines| ==> !(Kept(lines[j]) && lines[j].cacheKey == k)
  }

  ghost predicate NoneKept(lines: seq<Entry>, k: CacheKey) {
    forall i :: 0 <= i < |lines| && Kept(lines[i]) ==> lines[i].cacheKey != k
  }

  /** A key is answered by the last kept line that has it, and by nothing if no kept
      line has it. */
  lemma {:induction false} LoadFinds(lines: seq<Entry>, k: CacheKey)
    ensures forall i: nat :: LastKept(lines, k, i) ==> Get(Load(lines), k) == Some(lines[i])
    ensures NoneKept(lines, k) ==> Get(Load(lines), k) == None
  {
    forall i: nat | LastKept(lines, k, i)
      ensures Get(Load(lines), k) == Some(lines[i])
    {
      LoadFindsLast(lines, k, i);
    }
    if NoneKept(lines, k) {
      LoadFindsNone(lines, k);
    }
  }

  lemma {:induction false} LoadFindsLast(lines: seq<Entry>, k: CacheKey, i: nat)
    requires LastKept(lines, k, i)
    ensures Get(Load(lines), k) == Some(lines[i])
    decreases |lines|
  {
    var n := |lines| - 1;
    LoadStep(lines, k);
    if i == n {
    } else {
      LoadFindsLast(lines[..n], k, i);
    }
  }

  lemma {:induction false} LoadFindsNone(lines: seq<Entry>, k: CacheKey)
    requires NoneKept(lines, k)
    ensures Get(Load(lines), k) == None
    decreases |lines|
  {
    if lines == [] {
    } else {
      LoadStep(lines, k);
      LoadFindsNone(lines[..|lines| - 1], k);
    }
  }

  /** What the last line of a file does to the lookup of k. */
  lemma {:induction false} LoadStep(lines: seq<Entry>, k: CacheKey)
    requires lines != []
    ensures var e := lines[|lines| - 1];
            Get(Load(lines), k) == if Kept(e) && e.cacheKey == k then Some(e) else Get(Load(lines[..|lines| - 1]), k)
  {
    LoadClean(lines[..|lines| - 1]);
    PutGet(Load(lines[..|lines| - 1]), lines[|lines| - 1], k);
  }

  /** Loading a file that was written from a memory gives that memory back. */
  lemma {:induction false} LoadOfClean(lines: seq<Entry>)
    requires Unique(lines) && forall i :: 0 <= i < |lines| ==> Kept(lines[i])
    ensures Load(lines) == lines
  {
    if lines == [] {
    } else {
      LoadOfClean(lines[..|lines| - 1]);
    }
  }

  method LoadTranslationMemory(lines: seq<Entry>) returns (tm: Memory)
    ensures tm == Load(lines)
  {
    tm := [];
    for i := 0 to |lines|
      invariant tm == Load(lines[..i])
    {
      assert lines[..i + 1][..i] == lines[..i];
      if Kept(lines[i]) {
        tm := Put(tm, lines[i]);
      }
    }
    assert lines[..|lines|] == lines;
  }

  predicate Indexed(e: Entry, locale: string) {
    e.targetLocale == locale && e.textHash != "" && !Blank(e.translated)
  }

  function ByTextHash(tm: Memory, locale: string): map<string, Entry> {
    if tm == [] then map[] else
    var m, e := ByTextHash(tm[..|tm| - 1], locale), tm[|tm| - 1];
    if Indexed(e, locale) then m[e.textHash := e] else m
  }

  /** The index holds exactly the hashes of indexed entries, each with an entry
      of that hash and locale. */
  lemma {:induction false} ByTextHashIs(tm: Memory, locale: string, h: string)
    ensures h in ByTextHash(tm, locale) <==> exists i :: 0 <= i < |tm| && Indexed(tm[i], locale) && tm[i].textHash == h
    ensures h in ByTextHash(tm, locale) ==>
              var e := ByTextHash(tm, locale)[h]; e in tm && Indexed(e, locale) && e.textHash == h
  {
    if tm == [] {
    } else {
      var init := tm[..|tm| - 1];
      ByTextHashIs(init, locale, h);
      assert forall i :: 0 <= i < |init| ==> init[i] == tm[i];
    }
  }

  /** Entry i is the last of the memory that is indexed under hash h. */
  ghost predicate LastIndexed(tm: Memory, locale: string, h: string, i: nat) {
    && i < |tm| && Indexed(tm[i], locale) && tm[i].textHash == h
    && forall j :: i < j < |tm| ==> !(Indexed(tm[j], locale) && tm[j].textHash == h)
  }

  lemma {:induction false} LastIndexedWins(tm: Memory, locale: string, h: string, i: nat)
    requires LastIndexed(tm, locale, h, i)
    ensures h in ByTextHash(tm, locale) && ByTextHash(tm, locale)[h] == tm[i]
    decreases |tm|
  {
    var n := |tm| - 1;
    if i < n {
      assert tm[..n][i] == tm[i];
      LastIndexedWins(tm[..n], locale, h, i);
    }
  }

  method BuildTranslationMemoryByTextHash(tm: Memory, locale: string) returns (byTextHash: map<string, Entry>)
    ensures byTextHash == ByTextHash(tm, locale)
  {
    byTextHash := map[];
    for i := 0 to |tm|
      invariant byTextHash == ByTextHash(tm[..i], locale)
    {
      assert tm[..i + 1][..i] == tm[..i];
      if tm[i].targetLocale != locale || tm[i].textHash == "" || Blank(tm[i].translated) {
        continue;
      }
      byTextHash := byTextHash[tm[i].textHash := tm[i]];
    }
    assert tm[..|tm|] == tm;
  }
}
