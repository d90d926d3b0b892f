/**
 `setNestedValue`, and the loop that builds a map with it, on JavaScript objects
 (scripts/control-ui-i18n.ts), proved against module TranslationTree.

 A nested map on the heap is described by where its objects are: `at` gives the
 object at every path that ends at one, and `view` the slots of each.
 */
module TranslationObjects {
  import opened Common
  import opened TranslationTree

  datatype Slot = Str(text: string) | Ref(object_: Obj)

  class Obj {
    var slots: map<string, Slot>

    constructor ()
      ensures slots == map[]
    {
      slots := map[];
    }
  }

  type Places = map<Path, Obj>
  type Slots = map<Path, map<string, Slot>>

  ghost function View(at: Places): Slots
    reads at.Values
  {
    map p | p in at :: at[p].slots
  }

  ghost predicate OneObjectPerPlace(at: Places) {
    forall p, q :: p in at && q in at && at[p] == at[q] ==> p == q
  }

  /** Every place below another is what the slot there refers to, and every
      reference leads to a place. */
  ghost predicate Linked(at: Places, view: Slots)
    requires at.Keys == view.Keys
  {
    && (forall p, k {:trigger p + [k]} :: p + [k] in at ==> p in at && k in view[p] && view[p][k] == Ref(at[p + [k]]))
    && (forall p, k :: p in view && k in view[p] && view[p][k].Ref? ==> p + [k] in at)
  }

  /** The objects form a tree: no object is at two paths, and the references are
      exactly the steps between the paths. */
  ghost predicate Shape(at: Places, view: Slots) {
    at.Keys == view.Keys && [] in at && OneObjectPerPlace(at) && Linked(at, view)
  }

  /** The text in slot k of the object at p. */
  ghost function LeafIn(view: Slots, p: Path, k: string): Option<string> {
    if p in view && k in view[p] && view[p][k].Str? then Some(view[p][k].text) else None
  }

  ghost function Grafted(view: Slots, p: Path, k: string, o: Obj): Slots
    requires p in view
  {
    view[p := view[p][k := Ref(o)]][p + [k] := map[]]
  }

  /** Putting a new object at p + [k], where there was none. */
  lemma {:induction false} Graft(at: Places, view: Slots, p: Path, k: string, o: Obj)
    requires Shape(at, view) && p in at && o !in at.Values
    requires k in view[p] ==> view[p][k].Str?
    ensures Shape(at[p + [k] := o], Grafted(view, p, k, o)) && p + [k] !in at
  {
    var pk := p + [k];
    assert pk !in at;
    var at', view' := at[pk := o], Grafted(view, p, k, o);
    forall a, x | a + [x] in at'
      ensures a in at' && x in view'[a] && view'[a][x] == Ref(at'[a + [x]])
    {
      if a + [x] == pk {
        Snoc(a, x, p, k);
      } else {
        assert a + [x] in at;
        assert a == p ==> x != k;
        assert a != pk;
      }
    }
    forall a, x | a in view' && x in view'[a] && view'[a][x].Ref?
      ensures a + [x] in at'
    {
      if a != pk && !(a == p && x == k) {
        assert view[a][x].Ref?;
      }
    }
  }

  lemma Snoc(a: Path, x: string, p: Path, k: string)
    requires a + [x] == p + [k]
    ensures a == p && x == k
  {
    assert (a + [x])[..|a|] == a && (p + [k])[..|p|] == p;
    assert (a + [x])[|a|] == x && (p + [k])[|p|] == k;
  }

  /** The places left after a text replaced whatever was at path r. */
  ghost function Without<T>(m: map<Path, T>, r: Path): map<Path, T> {
    map q | q in m && !(r <= q) :: m[q]
  }

  ghost function Overwritten(view: Slots, p: Path, k: string, v: string): Slots
    requires p in view
  {
    Without(view, p + [k])[p := view[p][k := Str(v)]]
  }

  /** Writing a text at p + [k]; an object that was there goes with all below it. */
  lemma {:induction false} Write(at: Places, view: Slots, p: Path, k: string, v: string)
    requires Shape(at, view) && p in at
    ensures p in Without(at, p + [k]) && Shape(Without(at, p + [k]), Overwritten(view, p, k, v))
  {
    var pk := p + [k];
    var at', view' := Without(at, pk), Overwritten(view, p, k, v);
    assert !(pk <= p);
    assert !(pk <= []);
    forall a, x | a + [x] in at'
      ensures a in at' && x in view'[a] && view'[a][x] == Ref(at'[a + [x]])
    {
      assert a + [x] in at;
      assert pk <= a ==> pk <= a + [x];
      assert a == p && x == k ==> a + [x] == pk;
    }
    forall a, x | a in view' && x in view'[a] && view'[a][x].Ref?
      ensures a + [x] in at'
    {
      assert view[a][x].Ref? && a + [x] in at;
      PrefixOfSnoc(pk, a, x);
      if a + [x] == pk {
        Snoc(a, x, p, k);
      }
    }
  }

  lemma PrefixOfSnoc(r: Path, a: Path, x: string)
    ensures r <= a + [x] <==> r == a + [x] || r <= a
  {
    if r <= a + [x] && |r| <= |a| {
      assert r == (a + [x])[..|r|] == a[..|r|];
    }
  }

  // ------------------------------------------------------------------- leaves

  /** After walking along p, the texts that were on the way are gone. */
  ghost predicate Walked(before: Slots, view: Slots, p: Path) {
    forall a, x {:trigger a + [x]} :: LeafIn(view, a, x) == if a + [x] <= p then None else LeafIn(before, a, x)
  }

  lemma {:induction false} WalkGraft(before: Slots, view: Slots, p: Path, k: string, o: Obj)
    requires Walked(before, view, p) && p in view && p + [k] !in view
    ensures Walked(before, Grafted(view, p, k, o), p + [k])
  {
    forall a, x
      ensures LeafIn(Grafted(view, p, k, o), a, x) == if a + [x] <= p + [k] then None else LeafIn(before, a, x)
    {
      PrefixOfSnoc(a + [x], p, k);
      if a + [x] == p + [k] {
        Snoc(a, x, p, k);
      }
    }
  }

  lemma {:induction false} WalkDown(before: Slots, view: Slots, p: Path, k: string)
    requires Walked(before, view, p) && p in view && k in view[p] && view[p][k].Ref?
    ensures Walked(before, view, p + [k])
  {
    forall a, x
      ensures LeafIn(view, a, x) == if a + [x] <= p + [k] then None else LeafIn(before, a, x)
    {
      PrefixOfSnoc(a + [x], p, k);
      if a + [x] == p + [k] {
        Snoc(a, x, p, k);
      }
    }
  }

  /** What a write to path p does to the leaves, as in TranslationTree.WriteLeaf. */
  ghost predicate Written(before: Slots, view: Slots, p: Path, v: string) {
    forall a, x {:trigger a + [x]} ::
      LeafIn(view, a, x) == if a + [x] == p then Some(v) else if Clash(p, a + [x]) then None else LeafIn(before, a, x)
  }

  lemma {:induction false} WalkWrite(before: Slots, view: Slots, p: Path, k: string, v: string)
    requires Walked(before, view, p) && p in view
    ensures Written(before, Overwritten(view, p, k, v), p + [k], v)
  {
    var pk := p + [k];
    forall a, x
      ensures LeafIn(Overwritten(view, p, k, v), a, x) ==
              if a + [x] == pk then Some(v) else if Clash(pk, a + [x]) then None else LeafIn(before, a, x)
    {
      PrefixOfSnoc(a + [x], p, k);
      PrefixOfSnoc(pk, a, x);
      if a + [x] == pk {
        Snoc(a, x, p, k);
      }
    }
  }

  // ------------------------------------------------------------- empty objects

  /** Below the root, an object other than the one at p is empty only if it was. */
  ghost predicate NoNewEmpty(before: Slots, view: Slots, p: Path) {
    forall q :: q in view && view[q] == map[] ==> q == [] || q == p || (q in before && before[q] == map[])
  }

  lemma {:induction false} EmptyGraft(before: Slots, view: Slots, p: Path, k: string, o: Obj)
    requires NoNewEmpty(before, view, p) && p in view
    ensures NoNewEmpty(before, Grafted(view, p, k, o), p + [k])
  {
    assert k in Grafted(view, p, k, o)[p] || p == p + [k];
  }

  lemma {:induction false} EmptyDown(before: Slots, view: Slots, p: Path, k: string)
    requires NoNewEmpty(before, view, p) && p in view && k in view[p]
    ensures NoNewEmpty(before, view, p + [k])
  {
  }

  lemma {:induction false} EmptyWrite(before: Slots, view: Slots, p: Path, k: string, v: string)
    requires NoNewEmpty(before, view, p) && p in view
    ensures NoNewEmpty(before, Overwritten(view, p, k, v), [])
  {
    assert k in Overwritten(view, p, k, v)[p];
  }

  lemma {:induction false} ViewOf(at: Places, p: Path)
    requires OneObjectPerPlace(at) && p in at
    ensures View(at)[p] == at[p].slots && at[p] in at.Values
    ensures forall q :: q in at && q != p ==> at[q] != at[p]
  {
  }

  /** The walk has reached the object at p. */
  ghost predicate Reached(at: Places, root: Obj, before: Slots, p: Path, cursor: Obj)
    reads at.Values
  {
    && Shape(at, View(at)) && at[[]] == root && p in at && at[p] == cursor
    && Walked(before, View(at), p) && NoNewEmpty(before, View(at), p)
  }

  lemma {:induction false} ViewAfterGraft(at: Places, view: Slots, p: Path, k: string, o: Obj)
    requires OneObjectPerPlace(at) && p in at && p in view && at.Keys == view.Keys && o !in at.Values && p + [k] !in at
    requires at[p].slots == view[p][k := Ref(o)] && o.slots == map[]
    requires forall q :: q in at && q != p ==> at[q].slots == view[q]
    ensures View(at[p + [k] := o]) == Grafted(view, p, k, o)
  {
  }

  /** One turn of the loop. */
  method StepInto(cursor: Obj, key: string, ghost at: Places, ghost root: Obj, ghost before: Slots, ghost p: Path)
    returns (next: Obj, ghost at': Places)
    requires Reached(at, root, before, p, cursor)
    modifies cursor
    ensures Reached(at', root, before, p + [key], next)
    ensures fresh(at'.Values - at.Values) && next in at'.Values
  {
    ghost var view := View(at);
    ViewOf(at, p);
    if key in cursor.slots && cursor.slots[key].Ref? {
      WalkDown(before, view, p, key);
      EmptyDown(before, view, p, key);
      assert p + [key] in at;
      next := cursor.slots[key].object_;
      at' := at;
    } else {
      var replacement := new Obj();
      Graft(at, view, p, key, replacement);
      WalkGraft(before, view, p, key, replacement);
      EmptyGraft(before, view, p, key, replacement);
      cursor.slots := cursor.slots[key := Ref(replacement)];
      ViewAfterGraft(at, view, p, key, replacement);
      at' := at[p + [key] := replacement];
      next := replacement;
    }
  }

  lemma {:induction false} ViewAfterWrite(at: Places, view: Slots, p: Path, k: string, v: string)
    requires OneObjectPerPlace(at) && p in at && at.Keys == view.Keys
    requires at[p].slots == view[p][k := Str(v)]
    requires forall q :: q in at && q != p ==> at[q].slots == view[q]
    ensures View(Without(at, p + [k])) == Overwritten(view, p, k, v)
  {
    assert !(p + [k] <= p);
  }

  /** The objects are a tree again, in which value was written at p, and no empty object
      is left behind that was not there before. */
  ghost predicate Changed(at: Places, root: Obj, before: Slots, p: Path, value: string)
    reads at.Values
  {
    && Shape(at, View(at)) && at[[]] == root
    && Written(before, View(at), p, value) && NoNewEmpty(before, View(at), [])
  }

  /** The assignment after the loop. */
  method Assign(cursor: Obj, key: string, value: string, ghost at: Places, ghost root: Obj, ghost before: Slots, ghost p: Path)
    returns (ghost at': Places)
    requires Reached(at, root, before, p, cursor)
    modifies cursor
    ensures Changed(at', root, before, p + [key], value) && at'.Values <= at.Values
  {
    ghost var view := View(at);
    ViewOf(at, p);
    Write(at, view, p, key, value);
    WalkWrite(before, view, p, key, value);
    EmptyWrite(before, view, p, key, value);
    cursor.slots := cursor.slots[key := Str(value)];
    ViewAfterWrite(at, view, p, key, value);
    at' := Without(at, p + [key]);
    assert forall o :: o in at'.Values ==> o in at.Values;
  }

  lemma {:induction false} StartAtRoot(at: Places, root: Obj)
    requires Shape(at, View(at)) && at[[]] == root
    ensures Reached(at, root, View(at), [], root)
  {
  }

  /** The loop over all parts but the last. */
  method WalkTo(root: Obj, ghost at: Places, way: Path) returns (cursor: Obj, ghost at': Places)
    requires Shape(at, View(at)) && at[[]] == root
    modifies at.Values
    ensures fresh(at'.Values - at.Values) && cursor in at'.Values
    ensures Reached(at', root, old(View(at)), way, cursor)
  {
    at' := at;
    ghost var before := View(at);
    StartAtRoot(at, root);
    cursor := root;
    for index := 0 to |way|
      invariant fresh(at'.Values - at.Values) && cursor in at'.Values
      invariant exists gone :: gone == way[..index] && Reached(at', root, before, gone, cursor)
    {
      TakeOneMore(way, index);
      cursor, at' := StepInto(cursor, way[index], at', root, before, way[..index]);
    }
    TakeAll(way);
  }

  /** `setNestedValue`: walk down, putting objects where there are none, and
      write. The objects stay a tree, the leaves change as in WriteLeaf, and no
      empty object is left behind that was not there before. */
  method SetNested(root: Obj, ghost at: Places, parts: Path, value: string) returns (ghost at': Places)
    requires parts != [] && Shape(at, View(at)) && at[[]] == root
    modifies at.Values
    ensures fresh(at'.Values - at.Values)
    ensures Changed(at', root, old(View(at)), parts, value)
  {
    ghost var before := View(at);
    var way, key := parts[..|parts| - 1], parts[|parts| - 1];
    assert parts == way + [key];
    var cursor;
    cursor, at' := WalkTo(root, at, way);
    at' := Assign(cursor, key, value, at', root, before, way);
  }

  // -------------------------------------------------------------- whole objects

  /** The objects hold the leaves of the tree with children m. */
  ghost predicate Holds(view: Slots, m: map<string, Node>) {
    forall a, x {:trigger a + [x]} :: LeafIn(view, a, x) == LeafAt(Branch(m), a + [x])
  }

  lemma {:induction false} WriteHolds(before: Slots, view: Slots, m: map<string, Node>, p: Path, v: string)
    requires p != [] && Holds(before, m) && Written(before, view, p, v)
    ensures Holds(view, SetNestedValue(m, p, v))
  {
    forall a, x
      ensures LeafIn(view, a, x) == LeafAt(Branch(SetNestedValue(m, p, v)), a + [x])
    {
      WriteLeaf(m, p, v, a + [x]);
    }
  }

  /** No object below the root is empty. */
  ghost predicate NoEmpty(view: Slots) {
    forall q :: q in view && q != [] ==> view[q] != map[]
  }

  /** The object at p is the tree n, slot for slot. */
  ghost predicate Mirrors(view: Slots, p: Path, n: Node)
    requires n.Branch?
    decreases n
  {
    && p in view && view[p].Keys == n.children.Keys
    && forall k :: k in n.children ==>
         match n.children[k]
         case Text(text) => view[p][k] == Str(text)
         case Branch(_) => view[p][k].Ref? && Mirrors(view, p + [k], n.children[k])
  }

  /** The texts below p are the leaves of n. */
  ghost predicate HoldsBelow(view: Slots, p: Path, n: Node) {
    forall a, x {:trigger a + [x]} :: LeafIn(view, p + a, x) == LeafAt(n, a + [x])
  }

  /** Below an object that is not empty there is a text. */
  lemma {:induction false} SomeText(at: Places, view: Slots, q: Path) returns (a: Path, x: string)
    requires Shape(at, view) && NoEmpty(view) && q in view && view[q] != map[]
    ensures LeafIn(view, q + a, x).Some?
    decreases |Deeper(at, q)|
  {
    var k :| k in view[q];
    if view[q][k].Str? {
      a, x := [], k;
      assert q + [] == q;
    } else {
      assert q + [k] in at;
      assert Deeper(at, q + [k]) < Deeper(at, q) by {
        assert q + [k] in Deeper(at, q);
      }
      SmallerSet(Deeper(at, q + [k]), Deeper(at, q));
      var b;
      b, x := SomeText(at, view, q + [k]);
      a := [k] + b;
      assert q + a == q + [k] + b;
    }
  }

  ghost function Deeper(at: Places, q: Path): set<Path> {
    set p | p in at && |p| > |q|
  }

  lemma {:induction false} SmallerSet<T>(a: set<T>, b: set<T>)
    requires a < b
    ensures |a| < |b|
  {
    assert b == a + (b - a) && b - a != {};
  }

  /** Every object on the way to a place is a place. */
  lemma {:induction false} OnTheWay(at: Places, view: Slots, p: Path, a: Path)
    requires Shape(at, view) && p + a in at
    ensures p in at
    decreases |a|
  {
    if a == [] {
      assert p + a == p;
    } else {
      var n := |a| - 1;
      assert p + a == (p + a[..n]) + [a[n]];
      OnTheWay(at, view, p, a[..n]);
    }
  }

  lemma {:induction false} TextHere(view: Slots, p: Path, n: Node, k: string)
    requires n.Branch? && HoldsBelow(view, p, n)
    ensures LeafIn(view, p, k) == if k in n.children && n.children[k].Text? then Some(n.children[k].text) else None
  {
    assert p + [] == p && [] + [k] == [k] && [k][1..] == [];
    assert LeafIn(view, p + [], k) == LeafAt(n, [] + [k]);
    assert k in n.children ==> LeafAt(n, [k]) == LeafAt(n.children[k], []);
  }

  lemma {:induction false} TextBelow(view: Slots, p: Path, n: Node, k: string, a: Path, x: string)
    requires n.Branch? && HoldsBelow(view, p, n)
    ensures LeafIn(view, p + [k] + a, x) == if k in n.children then LeafAt(n.children[k], a + [x]) else None
  {
    assert LeafIn(view, p + ([k] + a), x) == LeafAt(n, ([k] + a) + [x]);
    PathBelow(p, k, a, x);
  }

  lemma PathBelow(p: Path, k: string, a: Path, x: string)
    ensures p + [k] + a == p + ([k] + a)
    ensures (([k] + a) + [x])[0] == k && (([k] + a) + [x])[1..] == a + [x]
  {
  }

  /** A slot of the object at p is a slot of n, with the same text or an object. */
  lemma {:induction false} SlotIsChild(at: Places, view: Slots, p: Path, n: Node, k: string)
    requires Shape(at, view) && NoEmpty(view) && n.Branch? && HoldsBelow(view, p, n) && p in view && k in view[p]
    ensures k in n.children
    ensures if view[p][k].Str? then n.children[k] == Text(view[p][k].text) else n.children[k].Branch?
  {
    if view[p][k].Str? {
      TextHere(view, p, n, k);
    } else {
      assert p + [k] in view;
      var a, x := SomeText(at, view, p + [k]);
      TextBelow(view, p, n, k, a, x);
    }
  }

  /** The other way round. */
  lemma {:induction false} ChildIsSlot(at: Places, view: Slots, p: Path, n: Node, k: string)
    requires Shape(at, view) && n.Branch? && Bushy(n) && HoldsBelow(view, p, n) && p in view && k in n.children
    ensures k in view[p]
  {
    if n.children[k].Text? {
      TextHere(view, p, n, k);
    } else {
      var q := SomeLeaf(n.children[k]);
      var a, x := q[..|q| - 1], q[|q| - 1];
      assert p + [k] + a in view by {
        InitAndLast(q);
        TextBelow(view, p, n, k, a, x);
      }
      OnTheWay(at, view, p + [k], a);
    }
  }

  lemma {:induction false} HoldsInChild(view: Slots, p: Path, n: Node, k: string)
    requires n.Branch? && HoldsBelow(view, p, n) && k in n.children
    ensures HoldsBelow(view, p + [k], n.children[k])
  {
    forall a, x
      ensures LeafIn(view, p + [k] + a, x) == LeafAt(n.children[k], a + [x])
    {
      TextBelow(view, p, n, k, a, x);
    }
  }

  /** Objects that hold the leaves of a tree, and of which none below the root is empty,
      are that tree. */
  lemma {:induction false} HoldersMirror(at: Places, view: Slots, p: Path, n: Node)
    requires Shape(at, view) && NoEmpty(view) && n.Branch? && Bushy(n) && HoldsBelow(view, p, n) && p in view
    ensures Mirrors(view, p, n)
    decreases n
  {
    forall k | k in view[p]
      ensures k in n.children
    {
      SlotIsChild(at, view, p, n, k);
    }
    forall k | k in n.children
      ensures k in view[p]
      ensures match n.children[k]
              case Text(text) => view[p][k] == Str(text)
              case Branch(_) => view[p][k].Ref? && Mirrors(view, p + [k], n.children[k])
    {
      ChildIsSlot(at, view, p, n, k);
      SlotIsChild(at, view, p, n, k);
      if n.children[k].Branch? {
        HoldsInChild(view, p, n, k);
        HoldersMirror(at, view, p + [k], n.children[k]);
      }
    }
  }

  lemma {:induction false} BuiltIsTree(at: Places, view: Slots, entries: seq<(string, string)>)
    requires Shape(at, view) && NoEmpty(view) && Holds(view, Rebuild(entries))
    ensures Mirrors(view, [], Branch(Rebuild(entries)))
  {
    RebuildIsBushy(entries);
    var n := Branch(Rebuild(entries));
    assert HoldsBelow(view, [], n) by {
      forall a, x
        ensures LeafIn(view, [] + a, x) == LeafAt(n, a + [x])
      {
        assert [] + a == a;
      }
    }
    HoldersMirror(at, view, [], n);
  }

  /** The loop that builds nextMap: the objects are the tree that Rebuild gives. */
  method BuildMap(entries: seq<(string, string)>) returns (root: Obj, ghost at: Places)
    ensures fresh(at.Values)
    ensures Shape(at, View(at)) && at[[]] == root
    ensures Mirrors(View(at), [], Branch(Rebuild(entries)))
  {
    root := new Obj();
    at := map[[] := root];
    assert View(at) == map[[] := map[]];
    assert Holds(View(at), map[]);
    for i := 0 to |entries|
      invariant fresh(at.Values)
      invariant Shape(at, View(at)) && at[[]] == root
      invariant Holds(View(at), Rebuild(entries[..i])) && NoEmpty(View(at))
    {
      TakeOneMore(entries, i);
      ghost var before := View(at);
      at := SetNested(root, at, Split(entries[i].0), entries[i].1);
      WriteHolds(before, View(at), Rebuild(entries[..i]), Split(entries[i].0), entries[i].1);
    }
    TakeAll(entries);
    BuiltIsTree(at, View(at), entries);
  }
}
