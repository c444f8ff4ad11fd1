/** MergeMaps (pkg/helm/helmcli.go): nested maps merged in place. */
module HelmValues {
  // ---------- the values as trees

  datatype Tree = Leaf(text: string) | Node(kids: map<string, Tree>)

  /** What merging means: the overlay wins unless both sides are maps. */
  function MergeTree(base: Tree, overlay: Tree): Tree {
    if base.Leaf? || overlay.Leaf? then overlay
    else
      Node(map k | k in base.kids.Keys + overlay.kids.Keys ::
        if k !in overlay.kids then base.kids[k]
        else if k !in base.kids then overlay.kids[k]
        else MergeTree(base.kids[k], overlay.kids[k]))
  }

  // ---------- the maps as objects

  datatype Value = Scalar(text: string) | Sub(m: Values)

  class Values {
    var entries: map<string, Value>
    ghost var Repr: set<Values>

    constructor ()
      ensures Valid() && fresh(Repr) && TreeOf() == Node(map[])
    {
      entries := map[];
      Repr := {this};
    }

    /** The maps reached from this one form a tree. */
    ghost predicate Valid()
      reads this, Repr
      ensures Valid() ==> this in Repr
      decreases Repr
    {
      && this in Repr
      && (forall k | k in entries && entries[k].Sub? :: Within(entries[k].m))
      && (forall j, k | j in entries && k in entries && j != k && entries[j].Sub? && entries[k].Sub? ::
            entries[j].m.Repr !! entries[k].m.Repr)
    }

    ghost predicate Within(m: Values)
      reads this, Repr
      decreases Repr, 0
    {
      m in Repr && m.Repr < Repr && this !in m.Repr && m.Valid()
    }

    ghost function TreeOf(): Tree
      requires Valid()
      reads this, Repr
      decreases Repr
    {
      Node(map k | k in entries :: if entries[k].Scalar? then Leaf(entries[k].text) else SubTree(entries[k].m))
    }

    ghost function SubTree(m: Values): Tree
      requires Within(m)
      reads this, Repr
      decreases Repr, 0
    {
      m.TreeOf()
    }

    /** Puts an entry in or over; a map put in becomes shared with its owner. */
    method Put(k: string, v: Value)
      requires Valid()
      requires v.Sub? ==> v.m.Valid() && this !in v.m.Repr
      requires v.Sub? ==> forall j | j in entries && j != k && entries[j].Sub? :: entries[j].m.Repr !! v.m.Repr
      modifies this
      ensures Valid() && entries == old(entries)[k := v] && Repr == old(Repr) + Parts(v)
      ensures TreeOf() == Node(old(TreeOf()).kids[k := ValueTree(v)])
    {
      entries := entries[k := v];
      Repr := Repr + Parts(v);
    }

    /** Merges a map into the one at a key. */
    method MergeAt(k: string, o: Values)
      requires Valid() && k in entries && entries[k].Sub?
      requires o.Valid() && this !in o.Repr
      requires forall j | j in entries && entries[j].Sub? :: entries[j].m.Repr !! o.Repr
      modifies this`Repr, entries[k].m.Repr
      ensures Valid() && entries == old(entries) && Repr == old(Repr) + entries[k].m.Repr
      ensures entries[k].m.Repr <= old(entries[k].m.Repr) + o.Repr
      ensures forall j | j in entries && j != k && entries[j].Sub? :: entries[j].m.Repr == old(entries[j].m.Repr)
      ensures TreeOf() == Node(old(TreeOf()).kids[k := MergeTree(old(TreeOf()).kids[k], old(o.TreeOf()))])
      decreases o.Repr, 1
    {
      hide MergeTree, TreeOf, SubTree, Valid;
      var c := entries[k].m;
      Kids();
      ghost var before := TreeOf().kids;
      ghost var reprs := map j | j in entries && entries[j].Sub? && j != k :: entries[j].m.Repr;
      MergeMaps(c, o);
      assert forall j | j in reprs :: entries[j].m.Repr == reprs[j] && Within(entries[j].m);
      assert forall j | j in reprs :: entries[j].m.TreeOf() == before[j];
      Absorb(k, reprs, before);
    }

    /** The tree, entry by entry. */
    lemma Kids()
      requires Valid()
      ensures TreeOf().Node? && TreeOf().kids.Keys == entries.Keys
      ensures forall j | j in entries && entries[j].Scalar? :: TreeOf().kids[j] == Leaf(entries[j].text)
      ensures forall j | j in entries && entries[j].Sub? ::
        Within(entries[j].m) && TreeOf().kids[j] == SubTree(entries[j].m) == entries[j].m.TreeOf()
      ensures forall i, j | i in entries && j in entries && i != j && entries[i].Sub? && entries[j].Sub? ::
        entries[i].m.Repr !! entries[j].m.Repr
    {
      assert forall j | j in entries && entries[j].Sub? :: Within(entries[j].m);
    }

    lemma TreeIs(kids: map<string, Tree>)
      requires Valid() && kids.Keys == entries.Keys
      requires forall j | j in entries && entries[j].Scalar? :: kids[j] == Leaf(entries[j].text)
      requires forall j | j in entries && entries[j].Sub? :: Within(entries[j].m) && kids[j] == entries[j].m.TreeOf()
      ensures TreeOf() == Node(kids)
    {
    }

    /** Takes over the maps that a merge has put below the map at a key. */
    ghost method Absorb(k: string, reprs: map<string, set<Values>>, before: map<string, Tree>)
      requires Separate(k, reprs) && before.Keys == entries.Keys
      requires forall j | j in entries && entries[j].Scalar? :: before[j] == Leaf(entries[j].text)
      requires forall j | j in reprs :: Within(entries[j].m) && entries[j].m.TreeOf() == before[j]
      modifies this`Repr
      ensures Valid() && Repr == old(Repr) + entries[k].m.Repr
      ensures TreeOf() == Node(before[k := entries[k].m.TreeOf()])
    {
      hide TreeOf, SubTree;
      Extend(k, reprs);
      assert forall j | j in reprs :: entries[j].m.TreeOf() == before[j];
      TreeIs(before[k := entries[k].m.TreeOf()]);
    }

    /** The maps below this one have nothing in common, the one at k included. */
    ghost predicate Separate(k: string, reprs: map<string, set<Values>>)
      reads this, Repr, if k in entries && entries[k].Sub? then {entries[k].m} + entries[k].m.Repr else {}
    {
      && this in Repr && k in entries && entries[k].Sub? && entries[k].m.Valid() && this !in entries[k].m.Repr
      && reprs.Keys == (set j | j in entries && entries[j].Sub? && j != k)
      && (forall j | j in reprs :: Within(entries[j].m) && entries[j].m.Repr == reprs[j] && reprs[j] !! entries[k].m.Repr)
      && (forall i, j | i in reprs && j in reprs && i != j :: reprs[i] !! reprs[j])
    }

    ghost method Extend(k: string, reprs: map<string, set<Values>>)
      requires Separate(k, reprs)
      modifies this`Repr
      ensures Valid() && Repr == old(Repr) + entries[k].m.Repr
      ensures forall j | j in entries && entries[j].Sub? :: Within(entries[j].m)
    {
      Repr := Repr + entries[k].m.Repr;
      assert Within(entries[k].m);
      assert forall j | j in reprs :: Within(entries[j].m);
    }
  }

  ghost function Parts(v: Value): set<Values>
    reads if v.Sub? then {v.m} else {}
  {
    if v.Sub? then v.m.Repr else {}
  }

  ghost function ValueTree(v: Value): Tree
    requires v.Sub? ==> v.m.Valid()
    reads if v.Sub? then {v.m} + v.m.Repr else {}
  {
    if v.Scalar? then Leaf(v.text) else v.m.TreeOf()
  }

  /** The merge when only the keys in `done` have been looked at. */
  ghost function Partly(was: map<string, Tree>, over: map<string, Tree>, done: set<string>): map<string, Tree>
    requires done <= over.Keys
  {
    map k | k in was.Keys + done ::
      if k !in done then was[k] else if k !in was then over[k] else MergeTree(was[k], over[k])
  }

  lemma PartlyNone(was: map<string, Tree>, over: map<string, Tree>)
    ensures Partly(was, over, {}) == was
  {
  }

  lemma PartlyNext(was: map<string, Tree>, over: map<string, Tree>, done: set<string>, k: string)
    requires done <= over.Keys && k in over && k !in done
    ensures Partly(was, over, done + {k})
         == Partly(was, over, done)[k := if k !in was then over[k] else MergeTree(was[k], over[k])]
    ensures k in Partly(was, over, done) <==> k in was
    ensures k in was ==> Partly(was, over, done)[k] == was[k]
  {
  }

  lemma PartlyAll(was: map<string, Tree>, over: map<string, Tree>)
    ensures Node(Partly(was, over, over.Keys)) == MergeTree(Node(was), Node(over))
  {
  }

  /** Each map below the base is an old one, with what the overlay has put there. */
  ghost predicate Sources(base: Values, overlay: Values, before: set<Values>, done: set<string>)
    requires base.Valid() && overlay.Valid()
    reads base, base.Repr, overlay, overlay.Repr
  {
    forall k | k in base.entries && base.entries[k].Sub? ::
      && base.Within(base.entries[k].m)
      && base.entries[k].m.Repr <= before + OverlayPart(overlay, k, done)
  }

  ghost function OverlayPart(overlay: Values, k: string, done: set<string>): set<Values>
    requires overlay.Valid()
    reads overlay, overlay.Repr
  {
    if k in done && k in overlay.entries && overlay.entries[k].Sub? && overlay.Within(overlay.entries[k].m)
    then overlay.entries[k].m.Repr else {}
  }

  lemma Apart(base: Values, overlay: Values, before: set<Values>, done: set<string>, k: string)
    requires base.Valid() && overlay.Valid() && base in before && before !! overlay.Repr
    requires Sources(base, overlay, before, done)
    requires k in overlay.entries && k !in done && overlay.entries[k].Sub?
    ensures var o := overlay.entries[k].m;
      && overlay.Within(o) && base !in o.Repr && o.Repr < overlay.Repr
      && forall j | j in base.entries && base.entries[j].Sub? :: base.entries[j].m.Repr !! o.Repr
  {
    var o := overlay.entries[k].m;
    assert overlay.Within(o);
    forall j | j in base.entries && base.entries[j].Sub?
      ensures base.entries[j].m.Repr !! o.Repr
    {
      assert OverlayPart(overlay, j, done) !! o.Repr;
    }
  }

  method MergeMaps(base: Values, overlay: Values)
    requires base.Valid() && overlay.Valid() && base.Repr !! overlay.Repr
    modifies base.Repr
    ensures base.Valid() && base.Repr <= old(base.Repr) + overlay.Repr
    ensures base.TreeOf() == MergeTree(old(base.TreeOf()), old(overlay.TreeOf()))
    decreases overlay.Repr, 0
  {
    hide MergeTree, Partly;
    ghost var was, over := base.TreeOf().kids, overlay.TreeOf().kids;
    var left := overlay.entries.Keys;
    PartlyNone(was, over);
    PartlyAll(was, over);
    assert over.Keys - left == {};
    while left != {}
      invariant left <= over.Keys
      invariant base.Valid() && base.Repr <= old(base.Repr) + overlay.Repr
      invariant base.TreeOf() == Node(Partly(was, over, over.Keys - left))
      invariant Sources(base, overlay, old(base.Repr), over.Keys - left)
      decreases left
    {
      var k :| k in left;
      ghost var done := over.Keys - left;
      PartlyNext(was, over, done, k);
      KeyOf(base, k);
      KeyOf(overlay, k);
      var recursed := false;
      if k in base.entries {
        if base.entries[k].Sub? && overlay.entries[k].Sub? {
          MergeOne(base, overlay, k, done, old(base.Repr));
          recursed := true;
        } else {
          LeafMerges(was[k], over[k]);
        }
      }
      if !recursed {
        PutOne(base, overlay, k, done, old(base.Repr));
      }
      left := left - {k};
      assert over.Keys - left == done + {k};
    }
    assert over.Keys - left == over.Keys;
  }

  lemma KeyOf(m: Values, k: string)
    requires m.Valid()
    ensures k in m.TreeOf().kids <==> k in m.entries
    ensures k in m.entries && m.entries[k].Scalar? ==> m.TreeOf().kids[k] == Leaf(m.entries[k].text)
    ensures k in m.entries && m.entries[k].Sub? ==>
      m.Within(m.entries[k].m) && m.TreeOf().kids[k] == m.entries[k].m.TreeOf() && m.TreeOf().kids[k].Node?
  {
    if k in m.entries && m.entries[k].Sub? {
      assert m.Within(m.entries[k].m) && m.SubTree(m.entries[k].m).Node?;
    }
  }

  lemma LeafMerges(a: Tree, b: Tree)
    requires a.Leaf? || b.Leaf?
    ensures MergeTree(a, b) == b
  {
  }

  /** The body of the loop, when the overlay's value replaces or adds. */
  method PutOne(base: Values, overlay: Values, k: string, ghost done: set<string>, ghost before: set<Values>)
    requires base.Valid() && overlay.Valid() && base in before && before !! overlay.Repr
    requires base.Repr <= before + overlay.Repr && Sources(base, overlay, before, done)
    requires k in overlay.entries && k !in done
    modifies base
    ensures base.Valid() && base.Repr <= before + overlay.Repr && Sources(base, overlay, before, done + {k})
    ensures base.TreeOf() == Node(old(base.TreeOf()).kids[k := old(overlay.TreeOf()).kids[k]])
  {
    hide Values.TreeOf;
    var v := overlay.entries[k];
    KeyOf(overlay, k);
    if v.Sub? {
      Apart(base, overlay, before, done, k);
    }
    label start:
    base.Put(k, v);
    forall j | j in base.entries && base.entries[j].Sub?
      ensures base.Within(base.entries[j].m)
      ensures base.entries[j].m.Repr <= before + OverlayPart(overlay, j, done + {k})
    {
      if j != k {
        assert old@start(base.Within(base.entries[j].m));
        assert OverlayPart(overlay, j, done) == OverlayPart(overlay, j, done + {k});
      }
    }
  }

  /** The body of the loop, when both sides are maps. */
  method MergeOne(base: Values, overlay: Values, k: string, ghost done: set<string>, ghost before: set<Values>)
    requires base.Valid() && overlay.Valid() && base in before && before !! overlay.Repr
    requires base.Repr <= before + overlay.Repr && Sources(base, overlay, before, done)
    requires k in overlay.entries && k !in done && overlay.entries[k].Sub? && k in base.entries && base.entries[k].Sub?
    modifies before
    ensures base.Valid() && base.Repr <= before + overlay.Repr && Sources(base, overlay, before, done + {k})
    ensures base.TreeOf() == Node(old(base.TreeOf()).kids[k := MergeTree(old(base.TreeOf()).kids[k], old(overlay.TreeOf()).kids[k])])
    decreases overlay.Repr, 0, 0
  {
    hide MergeTree, Values.TreeOf;
    KeyOf(overlay, k);
    Apart(base, overlay, before, done, k);
    assert OverlayPart(overlay, k, done) == {};
    label start:
    base.MergeAt(k, overlay.entries[k].m);
    forall j | j in base.entries && base.entries[j].Sub?
      ensures base.Within(base.entries[j].m)
      ensures base.entries[j].m.Repr <= before + OverlayPart(overlay, j, done + {k})
    {
      if j != k {
        assert old@start(base.Within(base.entries[j].m));
        assert OverlayPart(overlay, j, done) == OverlayPart(overlay, j, done + {k});
      }
    }
  }

  // ---------- several overlays

  /** The overlays laid over a tree, one after the other. */
  function InOrder(base: Tree, overlays: seq<Tree>): Tree {
    if overlays == [] then base
    else MergeTree(InOrder(base, overlays[..|overlays| - 1]), overlays[|overlays| - 1])
  }

  const NOTHING := Node(map[])

  ghost function Owned(reprs: seq<set<Values>>): set<Values> { set i, m | 0 <= i < |reprs| && m in reprs[i] :: m }

  /** The overlays from one on are trees of their own, with these maps. */
  ghost predicate Stand(overlays: seq<Values>, trees: seq<Tree>, reprs: seq<set<Values>>, from: nat)
    requires |trees| == |overlays| == |reprs|
    reads overlays, Owned(reprs)
  {
    forall i | from <= i < |overlays| ::
      overlays[i].Repr == reprs[i] && overlays[i].Valid() && overlays[i].TreeOf() == trees[i]
  }

  ghost predicate Disjoint(reprs: seq<set<Values>>) {
    forall i, j | 0 <= i < j < |reprs| :: reprs[i] !! reprs[j]
  }

  /** MergeValues, for overrides given as literals and files.  The base takes maps
      over from the overlays, so later overlays are merged into earlier ones. */
  method MergeValues(overlays: seq<Values>, ghost trees: seq<Tree>, ghost reprs: seq<set<Values>>) returns (base: Values)
    requires |trees| == |overlays| == |reprs| && Stand(overlays, trees, reprs, 0) && Disjoint(reprs)
    modifies Owned(reprs)
    ensures base.Valid() && base.TreeOf() == InOrder(NOTHING, trees)
  {
    hide MergeTree, InOrder, Values.TreeOf, Values.Valid;
    base := new Values();
    InOrderNone(trees);
    for i := 0 to |overlays|
      invariant base.Valid() && base.TreeOf() == InOrder(NOTHING, trees[..i])
      invariant forall m | m in base.Repr :: fresh(m) || exists j :: 0 <= j < i && m in reprs[j]
      invariant Stand(overlays, trees, reprs, i)
    {
      InOrderNext(trees, i);
      assert forall j | i <= j < |overlays| :: base.Repr !! reprs[j];
      MergeMaps(base, overlays[i]);
    }
    assert trees[..|overlays|] == trees;
  }

  lemma InOrderNone(trees: seq<Tree>)
    ensures InOrder(NOTHING, trees[..0]) == NOTHING
  {
  }

  lemma InOrderNext(trees: seq<Tree>, i: nat)
    requires i < |trees|
    ensures InOrder(NOTHING, trees[..i + 1]) == MergeTree(InOrder(NOTHING, trees[..i]), trees[i])
  {
    assert trees[..i + 1][..i] == trees[..i];
  }
}
