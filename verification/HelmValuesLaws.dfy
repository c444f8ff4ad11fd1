/** What MergeMaps promises, path by path, and its algebra. */
module HelmValuesLaws {
  import opened Text
  import opened HelmValues

  /** The value at a path of keys, if there is one. */
  function At(t: Tree, path: seq<string>): Option<Tree> {
    if path == [] then Some(t)
    else if t.Leaf? || path[0] !in t.kids then None
    else At(t.kids[path[0]], path[1..])
  }

  predicate IsMap(t: Option<Tree>) { t.Some? && t.value.Node? }

  /** The overlay says something at a proper prefix of the path that is not a map
      laid over a map. */
  ghost predicate Covered(base: Tree, overlay: Tree, path: seq<string>) {
    exists i :: 0 <= i < |path| && At(overlay, path[..i]).Some? && !(IsMap(At(overlay, path[..i])) && IsMap(At(base, path[..i])))
  }

  /** At every path: the overlay's value wins unless both are maps, which are
      merged; a path the overlay does not touch keeps the base's value; and what
      the overlay replaces higher up is gone. */
  lemma {:induction false} MergeAtPath(base: Tree, overlay: Tree, path: seq<string>)
    ensures At(MergeTree(base, overlay), path) ==
      if IsMap(At(base, path)) && IsMap(At(overlay, path)) then
        Some(MergeTree(At(base, path).value, At(overlay, path).value))
      else if At(overlay, path).Some? || Covered(base, overlay, path) then At(overlay, path)
      else At(base, path)
  {
    if path != [] {
      assert path[..0] == [];
      if base.Leaf? || overlay.Leaf? {
        assert At(overlay, path[..0]) == Some(overlay);
      } else {
        var k, rest := path[0], path[1..];
        CoveredStep(base, overlay, path);
        if k in base.kids && k in overlay.kids {
          MergeAtPath(base.kids[k], overlay.kids[k], rest);
        }
      }
    }
  }

  lemma CoveredStep(base: Tree, overlay: Tree, path: seq<string>)
    requires path != [] && base.Node? && overlay.Node?
    ensures Covered(base, overlay, path) <==>
      && path[0] in overlay.kids
      && if path[0] in base.kids then Covered(base.kids[path[0]], overlay.kids[path[0]], path[1..]) else |path| > 1
  {
    var k, rest := path[0], path[1..];
    forall i | 0 < i <= |path|
      ensures path[..i][0] == k && path[..i][1..] == rest[..i - 1]
    {
    }
    if Covered(base, overlay, path) {
      var i :| 0 <= i < |path| && At(overlay, path[..i]).Some? && !(IsMap(At(overlay, path[..i])) && IsMap(At(base, path[..i])));
      assert i > 0;
      if k in base.kids {
        assert At(overlay.kids[k], rest[..i - 1]).Some?;
      }
    }
    if k in overlay.kids && k in base.kids && Covered(base.kids[k], overlay.kids[k], rest) {
      var i :| 0 <= i < |rest| && At(overlay.kids[k], rest[..i]).Some?
        && !(IsMap(At(overlay.kids[k], rest[..i])) && IsMap(At(base.kids[k], rest[..i])));
      assert At(overlay, path[..i + 1]).Some?;
    }
    if k in overlay.kids && k !in base.kids && |path| > 1 {
      assert rest[..0] == [];
      assert At(overlay, path[..1]) == At(overlay.kids[k], []);
      assert At(base, path[..1]) == None;
    }
  }

  /** Merging the same overlay twice is merging it once. */
  lemma {:induction false} MergeTwice(base: Tree, overlay: Tree)
    ensures MergeTree(MergeTree(base, overlay), overlay) == MergeTree(base, overlay)
    ensures MergeTree(overlay, overlay) == overlay
    decreases overlay
  {
    if overlay.Node? {
      forall k | k in overlay.kids
        ensures MergeTree(overlay.kids[k], overlay.kids[k]) == overlay.kids[k]
      {
        MergeTwice(overlay.kids[k], overlay.kids[k]);
      }
      if base.Node? {
        forall k | k in overlay.kids && k in base.kids
          ensures MergeTree(MergeTree(base.kids[k], overlay.kids[k]), overlay.kids[k]) == MergeTree(base.kids[k], overlay.kids[k])
        {
          MergeTwice(base.kids[k], overlay.kids[k]);
        }
      }
    }
  }

  // ---------- associativity

  /** Nothing of a shows when c is laid over it. */
  predicate Hides(c: Tree, a: Tree) {
    a.Leaf? || c.Leaf? || forall k | k in a.kids :: k in c.kids && Hides(c.kids[k], a.kids[k])
  }

  /** Nowhere is there a map in a, something else in b and a map in c again that
      lets some of a show. */
  predicate NoGap(a: Tree, b: Tree, c: Tree) {
    match (a, b, c)
    case (Node(_), Leaf(_), Node(_)) => Hides(c, a)
    case (Node(ka), Node(kb), Node(kc)) => forall k | k in ka && k in kb && k in kc :: NoGap(ka[k], kb[k], kc[k])
    case _ => true
  }

  lemma {:induction false} HidesIs(c: Tree, a: Tree)
    ensures MergeTree(a, c) == c <==> Hides(c, a)
  {
    if a.Node? && c.Node? {
      var m := MergeTree(a, c);
      forall k | k in a.kids && k in c.kids
        ensures m.kids[k] == c.kids[k] <==> Hides(c.kids[k], a.kids[k])
      {
        HidesIs(c.kids[k], a.kids[k]);
      }
      if Hides(c, a) {
        assert m.kids == c.kids;
      } else {
        var k :| k in a.kids && !(k in c.kids && Hides(c.kids[k], a.kids[k]));
        assert k in m.kids;
      }
    }
  }

  /** Merging is associative exactly when there is no such gap; no path that is a
      map in one tree and not a map in another is enough. */
  lemma {:induction false} Associative(a: Tree, b: Tree, c: Tree)
    ensures MergeTree(MergeTree(a, b), c) == MergeTree(a, MergeTree(b, c)) <==> NoGap(a, b, c)
  {
    match (a, b, c) {
      case (Node(_), Leaf(_), Node(_)) => HidesIs(c, a);
      case (Node(ka), Node(kb), Node(kc)) =>
        var l, r := MergeTree(MergeTree(a, b), c), MergeTree(a, MergeTree(b, c));
        forall k | k in ka && k in kb && k in kc
          ensures l.kids[k] == r.kids[k] <==> NoGap(ka[k], kb[k], kc[k])
        {
          Associative(ka[k], kb[k], kc[k]);
        }
        assert l.kids.Keys == r.kids.Keys;
        forall k | k in l.kids && !(k in ka && k in kb && k in kc)
          ensures l.kids[k] == r.kids[k]
        {
        }
        if NoGap(a, b, c) {
          assert l.kids == r.kids;
        }
      case _ =>
    }
  }

  /** A map laid over a text laid over a map: from the left the text has taken the
      first map away, from the right the two maps are merged. */
  lemma GapBreaksAssociativity()
    ensures var a, b, c := Node(map["k" := Node(map["x" := Leaf("1")])]), Node(map["k" := Leaf("2")]), Node(map["k" := Node(map[])]);
      MergeTree(MergeTree(a, b), c) != MergeTree(a, MergeTree(b, c))
  {
    var a, b, c := Node(map["k" := Node(map["x" := Leaf("1")])]), Node(map["k" := Leaf("2")]), Node(map["k" := Node(map[])]);
    assert "x" in a.kids["k"].kids;
    Associative(a, b, c);
    assert !NoGap(a.kids["k"], b.kids["k"], c.kids["k"]);
  }

  /** The two trees have the same kind of value wherever both have one. */
  predicate SameKinds(a: Tree, b: Tree) {
    match (a, b)
    case (Node(ka), Node(kb)) => forall k | k in ka && k in kb :: SameKinds(ka[k], kb[k])
    case (Leaf(_), Leaf(_)) => true
    case _ => false
  }

  lemma {:induction false} SameKindsAssociative(a: Tree, b: Tree, c: Tree)
    requires SameKinds(a, b) && SameKinds(b, c)
    ensures NoGap(a, b, c)
  {
    if a.Node? && b.Node? && c.Node? {
      forall k | k in a.kids && k in b.kids && k in c.kids
        ensures NoGap(a.kids[k], b.kids[k], c.kids[k])
      {
        SameKindsAssociative(a.kids[k], b.kids[k], c.kids[k]);
      }
    }
  }

  // ---------- upgrading a release with several overrides

  lemma {:induction false} SameKindsMerge(x: Tree, a: Tree, b: Tree)
    requires SameKinds(x, a) && SameKinds(x, b) && SameKinds(a, b)
    ensures SameKinds(x, MergeTree(a, b)) && SameKinds(MergeTree(a, b), x)
  {
    SameKindsSymmetric(x, b);
    SameKindsSymmetric(x, a);
    if x.Node? && a.Node? && b.Node? {
      forall k | k in x.kids && k in a.kids && k in b.kids
        ensures SameKinds(x.kids[k], MergeTree(a.kids[k], b.kids[k])) && SameKinds(MergeTree(a.kids[k], b.kids[k]), x.kids[k])
      {
        SameKindsMerge(x.kids[k], a.kids[k], b.kids[k]);
      }
    }
  }

  lemma {:induction false} SameKindsSymmetric(a: Tree, b: Tree)
    requires SameKinds(a, b)
    ensures SameKinds(b, a)
  {
    if a.Node? && b.Node? {
      forall k | k in a.kids && k in b.kids
        ensures SameKinds(b.kids[k], a.kids[k])
      {
        SameKindsSymmetric(a.kids[k], b.kids[k]);
      }
    }
  }

  ghost predicate AllOfAKind(trees: seq<Tree>) {
    && (forall i | 0 <= i < |trees| :: trees[i].Node?)
    && forall i, j | 0 <= i < |trees| && 0 <= j < |trees| && i != j :: SameKinds(trees[i], trees[j])
  }

  lemma {:induction false} KindOfAll(x: Tree, overlays: seq<Tree>)
    requires x.Node? && AllOfAKind(overlays)
    requires forall i | 0 <= i < |overlays| :: SameKinds(x, overlays[i])
    ensures SameKinds(x, InOrder(NOTHING, overlays)) && SameKinds(InOrder(NOTHING, overlays), x)
    decreases |overlays|
  {
    if overlays != [] {
      var front, last := overlays[..|overlays| - 1], overlays[|overlays| - 1];
      KindOfAll(x, front);
      KindOfAll(last, front);
      SameKindsMerge(x, InOrder(NOTHING, front), last);
    }
  }

  /** If no two of the trees have a map against a non-map, merging the overrides
      together and then onto the release, as an upgrade does, is laying them over it
      one after the other; and a second upgrade with the same overrides changes
      nothing in any case. */
  lemma {:induction false} UpgradeInOrder(release: Tree, overlays: seq<Tree>)
    ensures release.Node? && AllOfAKind([release] + overlays) ==>
      MergeTree(release, InOrder(NOTHING, overlays)) == InOrder(release, overlays)
    ensures var once := MergeTree(release, InOrder(NOTHING, overlays)); MergeTree(once, InOrder(NOTHING, overlays)) == once
  {
    hide SameKinds, NoGap, MergeTree;
    MergeTwice(release, InOrder(NOTHING, overlays));
    if release.Node? && AllOfAKind([release] + overlays) {
      if overlays == [] {
        NothingOver(release);
      } else {
        var front, last := overlays[..|overlays| - 1], overlays[|overlays| - 1];
        var all := [release] + overlays;
        assert [release] + front == all[..|front| + 1];
        assert forall i | 0 <= i < |front| :: all[i + 1] == front[i];
        assert all[|front| + 1] == last && all[0] == release;
        UpgradeInOrder(release, front);
        KindOfAll(release, front);
        KindOfAll(last, front);
        SameKindsAssociative(release, InOrder(NOTHING, front), last);
        Associative(release, InOrder(NOTHING, front), last);
      }
    }
  }

  /** Merging the overrides together first makes no difference. */
  ghost predicate Agree(release: Tree, overlays: seq<Tree>) {
    MergeTree(release, InOrder(NOTHING, overlays)) == InOrder(release, overlays)
  }

  /** Neither does it for the first of them, however many. */
  ghost predicate AgreeThroughout(release: Tree, overlays: seq<Tree>) {
    Agree(release, overlays) && (overlays != [] ==> AgreeThroughout(release, overlays[..|overlays| - 1]))
  }

  /** No override meets a gap between the release and the overrides before it. */
  predicate NoGaps(release: Tree, overlays: seq<Tree>) {
    overlays != [] ==>
      var front := overlays[..|overlays| - 1];
      NoGap(release, InOrder(NOTHING, front), overlays[|overlays| - 1]) && NoGaps(release, front)
  }

  /** Exactly: the two agree after every override if and only if none meets a gap. */
  lemma {:induction false} UpgradeInOrderExactly(release: Tree, overlays: seq<Tree>)
    requires release.Node?
    ensures AgreeThroughout(release, overlays) <==> NoGaps(release, overlays)
  {
    hide NoGap, MergeTree;
    if overlays == [] {
      NothingOver(release);
    } else {
      var front, last := overlays[..|overlays| - 1], overlays[|overlays| - 1];
      UpgradeInOrderExactly(release, front);
      Associative(release, InOrder(NOTHING, front), last);
    }
  }

  lemma NothingOver(t: Tree)
    requires t.Node?
    ensures MergeTree(t, Node(map[])) == t
  {
    assert MergeTree(t, Node(map[])).kids == t.kids;
  }

  // ---------- which override wins

  /** The tree says nothing at the path, and has maps where it says something above. */
  ghost predicate Untouched(t: Tree, path: seq<string>) {
    At(t, path).None? && forall i | 0 <= i < |path| :: At(t, path[..i]).Some? ==> IsMap(At(t, path[..i]))
  }

  lemma {:induction false} MapsAbove(t: Tree, path: seq<string>, i: nat)
    requires At(t, path).Some? && i < |path|
    ensures IsMap(At(t, path[..i]))
  {
    if i > 0 {
      assert path[..i][0] == path[0] && path[..i][1..] == path[1..][..i - 1];
      MapsAbove(t.kids[path[0]], path[1..], i - 1);
    }
  }

  /** A text is in the outcome if the last tree that touches its path brings it. */
  lemma {:induction false} LastWins(base: Tree, overlays: seq<Tree>, i: nat, path: seq<string>, text: string)
    requires i < |overlays| && At(overlays[i], path) == Some(Leaf(text))
    requires forall j | i < j < |overlays| :: Untouched(overlays[j], path)
    ensures At(InOrder(base, overlays), path) == Some(Leaf(text))
    decreases |overlays|
  {
    hide MergeTree;
    var front, last := overlays[..|overlays| - 1], overlays[|overlays| - 1];
    var before := InOrder(base, front);
    MergeAtPath(before, last, path);
    if i < |front| {
      LastWins(base, front, i, path, text);
      assert !Covered(before, last, path) by {
        forall p: nat | p < |path|
          ensures IsMap(At(before, path[..p]))
        {
          MapsAbove(before, path, p);
        }
      }
    }
  }

  /** Every text in the outcome is brought by one of the trees at that very path. */
  lemma {:induction false} NothingInvented(base: Tree, overlays: seq<Tree>, path: seq<string>)
    ensures var v := At(InOrder(base, overlays), path);
      v.Some? && v.value.Leaf? ==> At(base, path) == v || exists i | 0 <= i < |overlays| :: At(overlays[i], path) == v
    decreases |overlays|
  {
    if overlays != [] {
      var front := overlays[..|overlays| - 1];
      MergeAtPath(InOrder(base, front), overlays[|overlays| - 1], path);
      NothingInvented(base, front, path);
      assert forall i | 0 <= i < |front| :: overlays[i] == front[i];
    }
  }
}
