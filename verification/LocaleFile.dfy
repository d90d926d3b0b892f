/**
 The locale file between two runs of `syncLocale` (scripts/control-ui-i18n.ts): the
 values a run ends with are written as a nested map, and the next run reads them back
 by flattening it.
 */
module LocaleFile {
  import opened Common
  import opened LocaleSync
  import opened TranslationTree

  /** The flat source map. */
  function SourceFlat(lines: seq<Line>): map<string, string>
    requires Distinct(lines)
  {
    map i | 0 <= i < |lines| :: lines[i].key := lines[i].text
  }

  /** The lines are those of a nested source map with plain keys. */
  ghost predicate FromTree(lines: seq<Line>, n: Node) {
    n.Branch? && WellKeyed(n) && Distinct(lines) && Lists(SourceFlat(lines), n)
  }

  /** What the loop that fills the next map sets, in source order. */
  function Entries(lines: seq<Line>, flat: map<string, string>): (r: seq<(string, string)>)
    requires forall i :: 0 <= i < |lines| ==> lines[i].key in flat
    ensures |r| == |lines| && forall i :: 0 <= i < |lines| ==> r[i] == (lines[i].key, flat[lines[i].key])
  {
    seq(|lines|, i requires 0 <= i < |lines| => (lines[i].key, flat[lines[i].key]))
  }

  lemma {:induction false} KeyIsPlain(lines: seq<Line>, n: Node, i: nat)
    requires FromTree(lines, n) && i < |lines|
    ensures PlainPath(Split(lines[i].key))
  {
    assert lines[i].key in SourceFlat(lines);
    LeafPathIsPlain(n, Split(lines[i].key));
  }

  lemma {:induction false} WriteKeepsWellKeyed(m: map<string, Node>, p: Path, v: string)
    requires WellKeyed(Branch(m)) && PlainPath(p)
    ensures WellKeyed(Branch(SetNestedValue(m, p, v)))
    decreases |p|
  {
    if |p| == 1 {
    } else {
      var next := if p[0] in m && m[p[0]].Branch? then m[p[0]].children else map[];
      assert p[0] in m && m[p[0]].Branch? ==> m[p[0]] == Branch(next) && WellKeyed(m[p[0]]);
      WriteKeepsWellKeyed(next, p[1..], v);
    }
  }

  lemma {:induction false} RebuildIsWellKeyed(entries: seq<(string, string)>)
    requires forall i :: 0 <= i < |entries| ==> PlainPath(Split(entries[i].0))
    ensures WellKeyed(Branch(Rebuild(entries)))
    decreases |entries|
  {
    if entries == [] {
    } else {
      var n := |entries| - 1;
      RebuildIsWellKeyed(entries[..n]);
      WriteKeepsWellKeyed(Rebuild(entries[..n]), Split(entries[n].0), entries[n].1);
    }
  }

  /** A tree has one flat map. */
  lemma {:induction false} OneListing(a: map<string, string>, b: map<string, string>, n: Node)
    requires Lists(a, n) && Lists(b, n)
    ensures a == b
  {
    ListedIn(a, b, n);
    ListedIn(b, a, n);
  }

  lemma {:induction false} ListedIn(a: map<string, string>, b: map<string, string>, n: Node)
    requires Lists(a, n) && Lists(b, n)
    ensures forall k :: k in a ==> k in b && a[k] == b[k]
  {
    forall k | k in a
      ensures k in b && a[k] == b[k]
    {
      assert LeafAt(n, Split(k)) == Some(a[k]) && Dotted(Split(k)) == k;
    }
  }

  lemma {:induction false} EntriesAreListed(lines: seq<Line>, flat: map<string, string>)
    requires flat.Keys == KeySet(lines)
    ensures ListsEntries(Entries(lines, flat), flat)
  {
    var entries := Entries(lines, flat);
    forall k | k in flat
      ensures exists i :: 0 <= i < |entries| && entries[i].0 == k
    {
      var i :| 0 <= i < |lines| && lines[i].key == k;
      assert entries[i].0 == k;
    }
  }

  /** For values of any kind under the keys of a well-keyed source: the nested map built
      from them is well-keyed, and its flat map is what was written. */
  lemma {:induction false} WrittenReadsBack(lines: seq<Line>, n: Node, flat: map<string, string>)
    requires FromTree(lines, n) && flat.Keys == KeySet(lines)
    ensures var written := Branch(Rebuild(Entries(lines, flat)));
            WellKeyed(written) && forall read :: Lists(read, written) <==> read == flat
  {
    var entries := Entries(lines, flat);
    var written := Branch(Rebuild(entries));
    assert Separate(flat.Keys) by {
      ListedKeysAreSeparate(SourceFlat(lines), n);
      assert SourceFlat(lines).Keys == flat.Keys;
    }
    assert Lists(flat, written) by {
      EntriesAreListed(lines, flat);
      RebuildThenFlatten(entries, flat);
    }
    forall i | 0 <= i < |entries|
      ensures PlainPath(Split(entries[i].0))
    {
      KeyIsPlain(lines, n, i);
    }
    RebuildIsWellKeyed(entries);
    forall read | Lists(read, written)
      ensures read == flat
    {
      OneListing(read, flat, written);
    }
  }

  /** What the next run reads from the locale file is what this run ended with. */
  method WriteAndRead(env: Env, lines: seq<Line>, t: Translations, ghost n: Node) returns (read: map<string, string>)
    requires FromTree(lines, n)
    ensures read == FinalFlat(env, lines, t)
  {
    FlatHolds(env, lines, t);
    var flat := FinalFlat(env, lines, t);
    WrittenReadsBack(lines, n, flat);
    read := FlattenTranslations(Branch(Rebuild(Entries(lines, flat))));
  }
}
