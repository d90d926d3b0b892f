/**
 Nested translation maps: `flattenTranslations` and `setNestedValue`
 (scripts/control-ui-i18n.ts). Objects are compared without regard to the order
 of their keys, and have no properties but their own.
 */
module TranslationTree {
  import opened Common

  datatype Node = Text(text: string) | Branch(children: map<string, Node>)

  type Path = seq<string>

  /** Names every object inherits; reading one does not yield undefined. */
  const INHERITED: set<string> := {
    "constructor", "hasOwnProperty", "isPrototypeOf", "propertyIsEnumerable", "toLocaleString", "toString", "valueOf",
    "__proto__", "__defineGetter__", "__defineSetter__", "__lookupGetter__", "__lookupSetter__"
  }

  predicate PlainKey(k: string) {
    k != "" && '.' !in k && k !in INHERITED
  }

  predicate PlainPath(p: Path) {
    p != [] && forall i :: 0 <= i < |p| ==> PlainKey(p[i])
  }

  predicate WellKeyed(n: Node) {
    n.Text? || forall k :: k in n.children ==> PlainKey(k) && WellKeyed(n.children[k])
  }

  // ------------------------------------------------------------ dotted keys

  function Dotted(p: Path): string {
    if p == [] then "" else if |p| == 1 then p[0] else p[0] + "." + Dotted(p[1..])
  }

  /** `key.split(".")`. */
  function Split(s: string): (p: Path)
    ensures p != []
  {
    if s == "" then [""]
    else
      var rest := Split(s[1..]);
      if s[0] == '.' then [""] + rest else [[s[0]] + rest[0]] + rest[1..]
  }

  lemma {:induction false} SplitSegment(k: string, s: string)
    requires '.' !in k
    ensures Split(k) == [k]
    ensures Split(k + "." + s) == [k] + Split(s)
  {
    if k == "" {
      assert k + "." + s == "." + s && ("." + s)[1..] == s;
    } else {
      var t := k[1..] + "." + s;
      assert (k + "." + s)[1..] == t && (k + "." + s)[0] == k[0];
      SplitSegment(k[1..], s);
      assert [k[0]] + k[1..] == k;
    }
  }

  lemma {:induction false} SplitDotted(p: Path)
    requires p != [] && forall i :: 0 <= i < |p| ==> '.' !in p[i]
    ensures Split(Dotted(p)) == p
  {
    if |p| == 1 {
      SplitSegment(p[0], "");
      assert p == [p[0]];
    } else {
      SplitDotted(p[1..]);
      SplitSegment(p[0], Dotted(p[1..]));
      assert p == [p[0]] + p[1..];
    }
  }

  lemma {:induction false} DottedSnoc(p: Path, k: string)
    requires p != []
    ensures Dotted(p + [k]) == Dotted(p) + "." + k
  {
    if |p| > 1 {
      assert (p + [k])[1..] == p[1..] + [k];
      DottedSnoc(p[1..], k);
    } else {
      assert (p + [k])[1..] == [k];
    }
  }

  // ------------------------------------------------------------------ leaves

  /** The text at the end of a path, if it ends at one. */
  function LeafAt(n: Node, p: Path): Option<string>
    decreases |p|
  {
    match n
    case Text(t) => if p == [] then Some(t) else None
    case Branch(m) => if p != [] && p[0] in m then LeafAt(m[p[0]], p[1..]) else None
  }

  /** No leaf lies on the way to another, so dotted keys never clash. */
  lemma {:induction false} LeavesArePrefixFree(n: Node, p: Path, q: Path)
    requires LeafAt(n, p).Some? && LeafAt(n, q).Some? && p <= q
    ensures p == q
    decreases |p|
  {
    if p == [] {
    } else {
      assert p[0] == q[0] && p[1..] <= q[1..];
      LeavesArePrefixFree(n.children[p[0]], p[1..], q[1..]);
    }
  }

  lemma {:induction false} LeafPathIsPlain(n: Node, p: Path)
    requires WellKeyed(n) && LeafAt(n, p).Some? && p != []
    ensures PlainPath(p)
    decreases |p|
  {
    if |p| > 1 {
      LeafPathIsPlain(n.children[p[0]], p[1..]);
      assert forall i :: 0 < i < |p| ==> p[i] == p[1..][i - 1];
    }
  }

  /** A flat map lists a tree: one entry for every leaf, and no other. */
  ghost predicate Lists(flat: map<string, string>, n: Node) {
    && (forall p :: p != [] && LeafAt(n, p).Some? ==> Dotted(p) in flat && LeafAt(n, p) == Some(flat[Dotted(p)]))
    && (forall k :: k in flat ==> LeafAt(n, Split(k)) == Some(flat[k]) && Dotted(Split(k)) == k)
  }

  // ------------------------------------------------------------ setNestedValue

  /** Writing below a missing key or a text puts a new object there. */
  function SetNestedValue(m: map<string, Node>, p: Path, v: string): map<string, Node>
    requires p != []
    decreases |p|
  {
    if |p| == 1 then m[p[0] := Text(v)]
    else
      var next := if p[0] in m && m[p[0]].Branch? then m[p[0]].children else map[];
      m[p[0] := Branch(SetNestedValue(next, p[1..], v))]
  }

  predicate Clash(p: Path, q: Path) {
    p <= q || q <= p
  }

  /** What a write does to every path: its own is set, those on the way to it or
      beyond it are lost, and all others stay. */
  lemma {:induction false} WriteLeaf(m: map<string, Node>, p: Path, v: string, q: Path)
    requires p != []
    ensures LeafAt(Branch(SetNestedValue(m, p, v)), q) ==
            if q == p then Some(v) else if Clash(p, q) then None else LeafAt(Branch(m), q)
    decreases |p|
  {
    if q != [] && q[0] == p[0] {
      assert p == [p[0]] + p[1..] && q == [q[0]] + q[1..];
      if |p| == 1 {
        assert p <= q;
      } else {
        var next := if p[0] in m && m[p[0]].Branch? then m[p[0]].children else map[];
        WriteLeaf(next, p[1..], v, q[1..]);
        assert Clash(p, q) <==> Clash(p[1..], q[1..]);
        assert q == p <==> q[1..] == p[1..];
        if !Clash(p, q) {
          assert LeafAt(Branch(m), q) == LeafAt(Branch(next), q[1..]);
        }
      }
    } else {
      assert Clash(p, q) <==> q == [];
    }
  }

  /** No object below the root is empty. */
  predicate Bushy(n: Node) {
    n.Text? || forall k :: k in n.children ==> n.children[k] != Branch(map[]) && Bushy(n.children[k])
  }

  lemma {:induction false} WriteKeepsBushy(m: map<string, Node>, p: Path, v: string)
    requires p != [] && Bushy(Branch(m))
    ensures Bushy(Branch(SetNestedValue(m, p, v))) && SetNestedValue(m, p, v) != map[]
    decreases |p|
  {
    assert p[0] in SetNestedValue(m, p, v);
    if |p| > 1 {
      var next := if p[0] in m && m[p[0]].Branch? then m[p[0]].children else map[];
      assert p[0] in m && m[p[0]].Branch? ==> m[p[0]] == Branch(next);
      WriteKeepsBushy(next, p[1..], v);
    }
  }

  /** Two trees without empty objects that have the same leaves are the same. */
  lemma {:induction false} SameLeaves(a: Node, b: Node)
    requires a.Branch? && b.Branch? && Bushy(a) && Bushy(b)
    requires forall p :: LeafAt(a, p) == LeafAt(b, p)
    ensures a == b
  {
    SameKeys(a, b);
    SameKeys(b, a);
    forall k | k in a.children
      ensures a.children[k] == b.children[k]
    {
      var x, y := a.children[k], b.children[k];
      forall p
        ensures LeafAt(x, p) == LeafAt(y, p)
      {
        assert ([k] + p)[1..] == p;
        assert LeafAt(a, [k] + p) == LeafAt(b, [k] + p);
      }
      if x.Branch? && y.Branch? {
        SameLeaves(x, y);
      } else {
        assert LeafAt(x, []) == LeafAt(y, []);
      }
    }
  }

  lemma {:induction false} SameKeys(a: Node, b: Node)
    requires a.Branch? && b.Branch? && Bushy(a)
    requires forall p :: LeafAt(a, p) == LeafAt(b, p)
    ensures a.children.Keys <= b.children.Keys
  {
    forall k | k in a.children
      ensures k in b.children
    {
      var p := SomeLeaf(a.children[k]);
      assert ([k] + p)[1..] == p;
      assert LeafAt(a, [k] + p).Some?;
    }
  }

  lemma {:induction false} SomeLeaf(n: Node) returns (p: Path)
    requires n != Branch(map[]) && Bushy(n)
    ensures LeafAt(n, p).Some?
  {
    if n.Text? {
      p := [];
    } else {
      var k :| k in n.children;
      var q := SomeLeaf(n.children[k]);
      p := [k] + q;
      assert p[1..] == q;
    }
  }

  // ----------------------------------------------------------------- rebuilding

  /** Setting every entry of a list, in order, starting from {}. */
  function Rebuild(entries: seq<(string, string)>): map<string, Node> {
    if entries == [] then map[] else
    SetNestedValue(Rebuild(entries[..|entries| - 1]), Split(entries[|entries| - 1].0), entries[|entries| - 1].1)
  }

  /** The entries in some order, each at least once. */
  ghost predicate ListsEntries(entries: seq<(string, string)>, flat: map<string, string>) {
    && (forall i :: 0 <= i < |entries| ==> entries[i].0 in flat && flat[entries[i].0] == entries[i].1)
    && (forall k :: k in flat ==> exists i :: 0 <= i < |entries| && entries[i].0 == k)
  }

  /** No two keys clash, and every key is the dotted form of its parts. */
  ghost predicate Separate(keys: set<string>) {
    && (forall k, l :: k in keys && l in keys && k != l ==> !Clash(Split(k), Split(l)))
    && (forall k :: k in keys ==> Dotted(Split(k)) == k)
  }

  lemma {:induction false} RebuildIsBushy(entries: seq<(string, string)>)
    ensures Bushy(Branch(Rebuild(entries)))
  {
    if entries == [] {
    } else {
      var init, last := entries[..|entries| - 1], entries[|entries| - 1];
      RebuildIsBushy(init);
      WriteKeepsBushy(Rebuild(init), Split(last.0), last.1);
    }
  }

  ghost predicate Sets(entries: seq<(string, string)>, q: Path) {
    exists i :: 0 <= i < |entries| && Split(entries[i].0) == q
  }

  lemma {:induction false} RebuildLeaves(entries: seq<(string, string)>, flat: map<string, string>, q: Path)
    requires Separate(flat.Keys)
    requires forall i :: 0 <= i < |entries| ==> entries[i].0 in flat && flat[entries[i].0] == entries[i].1
    ensures Sets(entries, q) ==> Dotted(q) in flat && LeafAt(Branch(Rebuild(entries)), q) == Some(flat[Dotted(q)])
    ensures !Sets(entries, q) ==> LeafAt(Branch(Rebuild(entries)), q) == None
  {
    if entries == [] {
    } else {
      var init, last := entries[..|entries| - 1], entries[|entries| - 1];
      var p := Split(last.0);
      RebuildLeaves(init, flat, q);
      WriteLeaf(Rebuild(init), p, last.1, q);
      assert Sets(entries, q) <==> Sets(init, q) || p == q by {
        assert forall i :: 0 <= i < |init| ==> init[i] == entries[i];
      }
      if q != p && Sets(init, q) {
        var i :| 0 <= i < |init| && Split(init[i].0) == q;
        assert !Clash(Split(last.0), Split(init[i].0));
      }
    }
  }

  /** Rebuilding, in any key order, gives a tree that flattens to the same map:
      for any values under keys that do not clash. */
  lemma {:induction false} RebuildThenFlatten(entries: seq<(string, string)>, flat: map<string, string>)
    requires Separate(flat.Keys) && ListsEntries(entries, flat)
    ensures Lists(flat, Branch(Rebuild(entries)))
  {
    var n := Branch(Rebuild(entries));
    forall p | p != [] && LeafAt(n, p).Some?
      ensures Dotted(p) in flat && LeafAt(n, p) == Some(flat[Dotted(p)])
    {
      RebuildLeaves(entries, flat, p);
    }
    forall k | k in flat
      ensures LeafAt(n, Split(k)) == Some(flat[k]) && Dotted(Split(k)) == k
    {
      var i :| 0 <= i < |entries| && entries[i].0 == k;
      assert Sets(entries, Split(k));
      RebuildLeaves(entries, flat, Split(k));
    }
  }

  /** The keys a well-keyed tree flattens to are separate. */
  lemma {:induction false} ListedKeysAreSeparate(flat: map<string, string>, n: Node)
    requires Lists(flat, n)
    ensures Separate(flat.Keys)
  {
    forall k, l | k in flat.Keys && l in flat.Keys && k != l
      ensures !Clash(Split(k), Split(l))
    {
      if Split(k) <= Split(l) {
        LeavesArePrefixFree(n, Split(k), Split(l));
      }
      if Split(l) <= Split(k) {
        LeavesArePrefixFree(n, Split(l), Split(k));
      }
      assert Dotted(Split(k)) == k && Dotted(Split(l)) == l;
    }
  }

  // --------------------------------------------------------------- the round trip

  predicate HasLeaf(n: Node) {
    n.Text? || exists k :: k in n.children && HasLeaf(n.children[k])
  }

  /** The tree without its empty branches. */
  function Prune(n: Node): Node {
    if n.Text? then n
    else Branch(map k | k in n.children && HasLeaf(n.children[k]) :: Prune(n.children[k]))
  }

  lemma {:induction false} LeafMeansHasLeaf(n: Node, p: Path)
    requires LeafAt(n, p).Some?
    ensures HasLeaf(n)
    decreases |p|
  {
    if n.Branch? {
      LeafMeansHasLeaf(n.children[p[0]], p[1..]);
    }
  }

  lemma {:induction false} PruneKeepsLeaves(n: Node, p: Path)
    ensures LeafAt(Prune(n), p) == LeafAt(n, p)
    decreases |p|
  {
    if n.Branch? && p != [] && p[0] in n.children {
      PruneKeepsLeaves(n.children[p[0]], p[1..]);
      if LeafAt(n, p).Some? {
        LeafMeansHasLeaf(n.children[p[0]], p[1..]);
      }
    }
  }

  lemma {:induction false} PruneIsBushy(n: Node)
    requires n.Branch?
    ensures Bushy(Prune(n))
    ensures HasLeaf(n) ==> Prune(n).children != map[]
  {
    if k :| k in n.children && HasLeaf(n.children[k]) {
      assert k in Prune(n).children;
    }
    forall k | k in n.children && n.children[k].Branch?
      ensures Bushy(Prune(n.children[k]))
      ensures HasLeaf(n.children[k]) ==> Prune(n.children[k]).children != map[]
    {
      PruneIsBushy(n.children[k]);
    }
  }

  /** Flattening a tree and setting its entries back, in any order, gives the tree
      without its empty branches. */
  lemma {:induction false} FlattenThenRebuild(n: Node, flat: map<string, string>, entries: seq<(string, string)>)
    requires n.Branch? && WellKeyed(n) && Lists(flat, n) && ListsEntries(entries, flat)
    ensures Branch(Rebuild(entries)) == Prune(n)
  {
    ListedKeysAreSeparate(flat, n);
    var r := Branch(Rebuild(entries));
    forall p
      ensures LeafAt(r, p) == LeafAt(Prune(n), p)
    {
      PruneKeepsLeaves(n, p);
      if p != [] {
        SameLeafAt(n, flat, entries, p);
      }
    }
    PruneIsBushy(n);
    RebuildIsBushy(entries);
    SameLeaves(r, Prune(n));
  }

  lemma {:induction false} SameLeafAt(n: Node, flat: map<string, string>, entries: seq<(string, string)>, p: Path)
    requires n.Branch? && WellKeyed(n) && Lists(flat, n) && ListsEntries(entries, flat) && Separate(flat.Keys) && p != []
    ensures LeafAt(Branch(Rebuild(entries)), p) == LeafAt(n, p)
  {
    RebuildLeaves(entries, flat, p);
    if LeafAt(n, p).Some? {
      LeafPathIsPlain(n, p);
      SplitDotted(p);
      var i :| 0 <= i < |entries| && entries[i].0 == Dotted(p);
      assert Sets(entries, p);
    }
    if Sets(entries, p) {
      var i :| 0 <= i < |entries| && Split(entries[i].0) == p;
      assert LeafAt(n, Split(entries[i].0)).Some?;
    }
  }

  // ------------------------------------------------------------ flattenTranslations

  /** Key k with text v lists a leaf of the tree n that hangs at path `at`, below
      one of the keys `done`. */
  ghost predicate FromLeaf(n: Node, at: Path, done: set<string>, k: string, v: string) {
    exists p :: LeafAt(n, p) == Some(v) && Below(p, done) && k == Dotted(at + p)
  }

  predicate Below(p: Path, done: set<string>) {
    p == [] || p[0] in done
  }

  /** `out` became out' by adding the leaves of n below the keys `done`. */
  ghost predicate Added(out: map<string, string>, out': map<string, string>, n: Node, at: Path, done: set<string>) {
    && (forall p :: LeafAt(n, p).Some? && Below(p, done) ==>
                      Dotted(at + p) in out' && LeafAt(n, p) == Some(out'[Dotted(at + p)]))
    && (forall k :: k in out' ==> (k in out && out'[k] == out[k]) || FromLeaf(n, at, done, k, out'[k]))
    && (forall k :: k in out ==> k in out')
  }

  ghost predicate PlainKeys(p: Path) {
    forall i :: 0 <= i < |p| ==> PlainKey(p[i])
  }

  lemma {:induction false} DottedIsInjective(p: Path, q: Path)
    requires p != [] && q != [] && PlainKeys(p) && PlainKeys(q) && Dotted(p) == Dotted(q)
    ensures p == q
  {
    SplitDotted(p);
    SplitDotted(q);
  }

  function TopKeys(n: Node): set<string> {
    if n.Branch? then n.children.Keys else {}
  }

  /** A leaf below one key is never listed under the path of a leaf below another. */
  lemma {:induction false} OtherChild(n: Node, at: Path, p: Path, k: string, v: string)
    requires n.Branch? && WellKeyed(n) && PlainKeys(at) && k in n.children
    requires LeafAt(n, p).Some? && p[0] != k
    ensures !FromLeaf(n.children[k], at + [k], TopKeys(n.children[k]), Dotted(at + p), v)
  {
    LeafPathIsPlain(n, p);
    forall q | LeafAt(n.children[k], q) == Some(v)
      ensures Dotted(at + p) != Dotted(at + [k] + q)
    {
      assert ([k] + q)[1..] == q;
      LeafPathIsPlain(n, [k] + q);
      assert at + [k] + q == at + ([k] + q);
      assert (at + p)[|at|] == p[0] && (at + ([k] + q))[|at|] == k;
      if Dotted(at + p) == Dotted(at + [k] + q) {
        DottedIsInjective(at + p, at + ([k] + q));
      }
    }
  }

  lemma {:induction false} ChildLeaf(n: Node, at: Path, done: set<string>, k: string, key: string, v: string)
    requires n.Branch? && k in n.children && FromLeaf(n.children[k], at + [k], TopKeys(n.children[k]), key, v)
    ensures FromLeaf(n, at, done + {k}, key, v)
  {
    var q :| LeafAt(n.children[k], q) == Some(v) && Below(q, TopKeys(n.children[k])) && key == Dotted(at + [k] + q);
    assert ([k] + q)[1..] == q && at + [k] + q == at + ([k] + q);
    assert LeafAt(n, [k] + q) == Some(v) && Below([k] + q, done + {k});
  }

  /** Adding the leaves below one more key overwrites none of the others. */
  lemma {:induction false} AddChild(out: map<string, string>, out1: map<string, string>, out2: map<string, string>, n: Node,
                                    at: Path, done: set<string>, k: string)
    requires n.Branch? && WellKeyed(n) && PlainKeys(at) && k in n.children && k !in done
    requires Added(out, out1, n, at, done)
    requires Added(out1, out2, n.children[k], at + [k], TopKeys(n.children[k]))
    ensures Added(out, out2, n, at, done + {k})
  {
    forall p | LeafAt(n, p).Some? && Below(p, done + {k})
      ensures Dotted(at + p) in out2 && LeafAt(n, p) == Some(out2[Dotted(at + p)])
    {
      if p[0] == k {
        assert LeafAt(n.children[k], p[1..]).Some?;
        assert Below(p[1..], TopKeys(n.children[k]));
        assert p == [k] + p[1..] && at + p == at + [k] + p[1..];
      } else {
        assert Below(p, done) && Dotted(at + p) in out1;
        OtherChild(n, at, p, k, out2[Dotted(at + p)]);
      }
    }
    forall x | x in out2
      ensures (x in out && out2[x] == out[x]) || FromLeaf(n, at, done + {k}, x, out2[x])
    {
      if FromLeaf(n.children[k], at + [k], TopKeys(n.children[k]), x, out2[x]) {
        ChildLeaf(n, at, done, k, x, out2[x]);
      } else if FromLeaf(n, at, done, x, out1[x]) {
        var q :| LeafAt(n, q) == Some(out1[x]) && Below(q, done) && x == Dotted(at + q);
        assert Below(q, done + {k});
      }
    }
  }

  /** A text adds itself. */
  lemma {:induction false} AddText(out: map<string, string>, text: string, at: Path)
    ensures Added(out, out[Dotted(at) := text], Text(text), at, {})
  {
    assert at + [] == at;
    assert FromLeaf(Text(text), at, {}, Dotted(at), text) by { assert LeafAt(Text(text), []) == Some(text); }
  }

  lemma {:induction false} FullKey(at: Path, key: string)
    requires PlainKeys(at)
    ensures Dotted(at + [key]) == if Dotted(at) != "" then Dotted(at) + "." + key else key
  {
    if at != [] {
      DottedSnoc(at, key);
      assert PlainKey(at[0]);
    } else {
      assert at + [key] == [key];
    }
  }

  /** `flattenTranslations`, for any order of the entries. On a well-keyed tree at
      a plain path it adds exactly the leaves, under their dotted paths. */
  method FlattenInto(value: Node, prefix: string, out: map<string, string>, ghost at: Path) returns (out': map<string, string>)
    requires value.Branch?
    ensures WellKeyed(value) && PlainKeys(at) && prefix == Dotted(at) ==> Added(out, out', value, at, value.children.Keys)
    decreases value, 1
  {
    out' := out;
    var todo := value.children.Keys;
    ghost var done := {};
    while todo != {}
      invariant done !! todo && done + todo == value.children.Keys
      invariant WellKeyed(value) && PlainKeys(at) && prefix == Dotted(at) ==> Added(out, out', value, at, done)
      decreases |todo|
    {
      var key :| key in todo;
      ghost var out1 := out';
      out' := FlattenEntry(value, key, prefix, out', at);
      if WellKeyed(value) && PlainKeys(at) && prefix == Dotted(at) {
        AddChild(out, out1, out', value, at, done, key);
      }
      MoveKey(done, todo, key);
      todo := todo - {key};
      done := done + {key};
    }
  }

  lemma MoveKey(done: set<string>, todo: set<string>, key: string)
    requires done !! todo && key in todo
    ensures done + {key} !! todo - {key} && (done + {key}) + (todo - {key}) == done + todo
    ensures |todo - {key}| < |todo|
  {
  }

  /** One entry: a text is stored, a nested map is flattened under its key. */
  method FlattenEntry(value: Node, key: string, prefix: string, out: map<string, string>, ghost at: Path)
    returns (out': map<string, string>)
    requires value.Branch? && key in value.children
    ensures WellKeyed(value) && PlainKeys(at) && prefix == Dotted(at) ==>
              Added(out, out', value.children[key], at + [key], TopKeys(value.children[key]))
    decreases value, 0
  {
    var fullKey := if prefix != "" then prefix + "." + key else key;
    if PlainKeys(at) {
      FullKey(at, key);
    }
    match value.children[key] {
      case Text(text) =>
        AddText(out, text, at + [key]);
        out' := out[fullKey := text];
      case Branch(_) =>
        out' := FlattenInto(value.children[key], fullKey, out, at + [key]);
    }
  }

  /** Flattening a well-keyed tree lists it. */
  method FlattenTranslations(value: Node) returns (flat: map<string, string>)
    requires value.Branch?
    ensures WellKeyed(value) ==> Lists(flat, value)
  {
    flat := FlattenInto(value, "", map[], []);
    if WellKeyed(value) {
      AddedToNothing(value, flat);
    }
  }

  lemma {:induction false} AddedToNothing(n: Node, flat: map<string, string>)
    requires n.Branch? && WellKeyed(n) && Added(map[], flat, n, [], n.children.Keys)
    ensures Lists(flat, n)
  {
    forall p | LeafAt(n, p).Some?
      ensures Dotted(p) in flat && LeafAt(n, p) == Some(flat[Dotted(p)])
    {
      assert [] + p == p && Below(p, n.children.Keys);
    }
    forall k | k in flat
      ensures LeafAt(n, Split(k)) == Some(flat[k]) && Dotted(Split(k)) == k
    {
      var p :| LeafAt(n, p) == Some(flat[k]) && Below(p, n.children.Keys) && k == Dotted([] + p);
      assert [] + p == p && p != [];
      LeafPathIsPlain(n, p);
      SplitDotted(p);
    }
  }
}
