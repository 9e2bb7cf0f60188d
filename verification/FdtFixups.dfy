/** Updating the references of an overlay to its own nodes (fdt_overlay.c): every cell
    listed once in the local fixups still names the node that it named. */
module FdtFixups {
  import opened Wrappers
  import opened Bytes
  import opened FdtFormat
  import opened FdtTree
  import opened FdtEdit
  import opened FdtEditTheorems
  import opened FdtUnion
  import opened FdtPhandles
  import opened FdtShape

  // ---------------------------------------------------------------- updating

  /** The four bytes at `off` of a value, moved up by `delta` in 32-bit arithmetic. */
  function Bump(v: seq<byte>, off: nat, delta: nat): (r: seq<byte>)
    requires off + 4 <= |v|
    ensures |r| == |v|
  {
    Put(v, off, BE32((U32(v, off) + delta) % WORD))
  }

  /** The cells that a fixup property lists, from cell `i` on, in the value `v`; nothing
      if one of them lies outside. */
  function BumpAll(v: seq<byte>, list: seq<byte>, i: nat, delta: nat): (r: Option<seq<byte>>)
    requires |list| % 4 == 0 && 4 * i <= |list|
    ensures r.Some? ==> |r.value| == |v|
    decreases |list| - 4 * i
  {
    if 4 * i == |list| then Some(v)
    else
      var off := U32(list, 4 * i);
      if off + 4 > |v| then None else BumpAll(Bump(v, off, delta), list, i + 1, delta)
  }

  /** The property loop of overlay_update_local_node_references. */
  function UpdateProps(n: Tree, fs: seq<PropVal>, delta: nat): (r: Outcome)
    decreases fs
  {
    if fs == [] then Ok(n)
    else
      var i := PropIndex(n.props, fs[0].name);
      if |fs[0].val| % 4 != 0 || i == |n.props| then Fail(-BADOVERLAY)
      else match BumpAll(n.props[i].val, fs[0].val, 0, delta)
        case None => Fail(-BADOVERLAY)
        case Some(v) => UpdateProps(n.(props := n.props[i := n.props[i].(val := v)]), fs[1..], delta)
  }

  /** overlay_update_local_node_references. */
  function Update(n: Tree, fix: Tree, delta: nat): (r: Outcome)
    decreases fix, 0
  {
    match UpdateProps(n, fix.props, delta)
    case Fail(e) => Fail(e)
    case Ok(m) => UpdateKids(m, fix.kids, delta)
  }

  function UpdateKids(n: Tree, fs: seq<Tree>, delta: nat): (r: Outcome)
    decreases fs
  {
    if fs == [] then Ok(n)
    else
      var i := KidIndex(n.kids, fs[0].name);
      if i == |n.kids| then Fail(-BADOVERLAY)
      else match Update(n.kids[i], fs[0], delta)
        case Fail(e) => Fail(e)
        case Ok(k) => UpdateKids(n.(kids := n.kids[i := k]), fs[1..], delta)
  }

  // ---------------------------------------------------------------- what the fixups list

  predicate Near(a: nat, b: nat) {
    a < b + 4 && b < a + 4
  }

  /** How many listed cells, from `i` on, are at `off`, and how many touch it. */
  function At(list: seq<byte>, i: nat, off: nat): nat
    requires |list| % 4 == 0 && 4 * i <= |list|
    decreases |list| - 4 * i
  {
    if 4 * i == |list| then 0 else (if U32(list, 4 * i) == off then 1 else 0) + At(list, i + 1, off)
  }

  function Touching(list: seq<byte>, i: nat, off: nat): nat
    requires |list| % 4 == 0 && 4 * i <= |list|
    decreases |list| - 4 * i
  {
    if 4 * i == |list| then 0 else (if Near(U32(list, 4 * i), off) then 1 else 0) + Touching(list, i + 1, off)
  }

  /** A cell of the tree: a node, one of its properties, an offset in the value. */
  datatype Ref = Ref(path: Path, prop: nat, off: nat)

  /** How many of the fixup properties' cells are this cell of the node, or touch it. */
  function PropHits(n: Tree, fs: seq<PropVal>, prop: nat, off: nat, exact: bool): nat
    decreases fs
  {
    if fs == [] then 0
    else
      (if PropIndex(n.props, fs[0].name) == prop && |fs[0].val| % 4 == 0
       then (if exact then At(fs[0].val, 0, off) else Touching(fs[0].val, 0, off)) else 0)
      + PropHits(n, fs[1..], prop, off, exact)
  }

  /** How often the fixups list this cell, or a cell that touches it. */
  function Hits(n: Tree, fix: Tree, c: Ref, exact: bool): nat
    requires Has(n, c.path)
    decreases fix, 0
  {
    if c.path == [] then PropHits(n, fix.props, c.prop, c.off, exact)
    else KidHits(n, fix.kids, c, exact)
  }

  function KidHits(n: Tree, fs: seq<Tree>, c: Ref, exact: bool): nat
    requires c.path != [] && Has(n, c.path)
    decreases fs
  {
    if fs == [] then 0
    else
      (if KidIndex(n.kids, fs[0].name) == c.path[0]
       then Hits(n.kids[c.path[0]], fs[0], c.(path := c.path[1..]), exact) else 0)
      + KidHits(n, fs[1..], c, exact)
  }

  // ---------------------------------------------------------------- shapes

  lemma {:induction false} SamePropIndex(ps: seq<PropVal>, qs: seq<PropVal>, name: Name)
    requires |ps| == |qs| && forall i :: 0 <= i < |ps| ==> ps[i].name == qs[i].name
    ensures PropIndex(ps, name) == PropIndex(qs, name)
    decreases ps
  {
    if ps != [] && ps[0].name != name {
      SamePropIndex(ps[1..], qs[1..], name);
    }
  }

  lemma {:induction false} SameKidIndex(ks: seq<Tree>, js: seq<Tree>, name: Name)
    requires |ks| == |js| && forall i :: 0 <= i < |ks| ==> ks[i].name == js[i].name
    ensures KidIndex(ks, name) == KidIndex(js, name)
    decreases ks
  {
    hide NameEq;
    if ks != [] && !NameEq(ks[0].name, name) {
      SameKidIndex(ks[1..], js[1..], name);
    }
  }

  lemma {:induction false} AlikePropHits(n: Tree, m: Tree, fs: seq<PropVal>, prop: nat, off: nat, exact: bool)
    requires Alike(n, m)
    ensures PropHits(n, fs, prop, off, exact) == PropHits(m, fs, prop, off, exact)
    decreases fs
  {
    hide At, Touching;
    if fs != [] {
      SamePropIndex(n.props, m.props, fs[0].name);
      AlikePropHits(n, m, fs[1..], prop, off, exact);
    }
  }

  lemma {:induction false} AlikeHits(n: Tree, m: Tree, fix: Tree, c: Ref, exact: bool)
    requires Alike(n, m) && Has(n, c.path)
    ensures Has(m, c.path) && Hits(n, fix, c, exact) == Hits(m, fix, c, exact)
    decreases fix, 0
  {
    AlikeHas(n, m, c.path);
    if c.path == [] {
      AlikePropHits(n, m, fix.props, c.prop, c.off, exact);
    } else {
      AlikeKidHits(n, m, fix.kids, c, exact);
    }
  }

  lemma {:induction false} AlikeKidHits(n: Tree, m: Tree, fs: seq<Tree>, c: Ref, exact: bool)
    requires Alike(n, m) && c.path != [] && Has(n, c.path)
    ensures Has(m, c.path) && KidHits(n, fs, c, exact) == KidHits(m, fs, c, exact)
    decreases fs
  {
    hide Hits;
    AlikeHas(n, m, c.path);
    if fs != [] {
      SameKidIndex(n.kids, m.kids, fs[0].name);
      AlikeHits(n.kids[c.path[0]], m.kids[c.path[0]], fs[0], c.(path := c.path[1..]), exact);
      AlikeKidHits(n, m, fs[1..], c, exact);
    }
  }

  // ---------------------------------------------------------------- values

  /** What becomes of the four bytes at `off` when `hits` listed cells are at it and
      `near` listed cells touch it. */
  ghost predicate Moved(v: seq<byte>, w: seq<byte>, off: nat, hits: nat, near: nat, delta: nat) {
    && |w| == |v|
    && (off + 4 <= |v| && near == 0 ==> w[off..off + 4] == v[off..off + 4])
    && (off + 4 <= |v| && near == 1 && hits == 1 ==> U32(w, off) == (U32(v, off) + delta) % WORD)
  }

  lemma BumpEffect(v: seq<byte>, at: nat, delta: nat, off: nat)
    requires at + 4 <= |v| && off + 4 <= |v|
    ensures var w := Bump(v, at, delta);
      && (!Near(at, off) ==> w[off..off + 4] == v[off..off + 4])
      && (at == off ==> U32(w, off) == (U32(v, off) + delta) % WORD)
  {
    hide U32, BE32;
    var x := BE32((U32(v, at) + delta) % WORD);
    if !Near(at, off) {
      PutElsewhere(v, at, x, off, off + 4);
    }
    if at == off {
      WordInside(v[..at], (U32(v, at) + delta) % WORD, v[at + 4..]);
    }
  }

  lemma SameWord(v: seq<byte>, w: seq<byte>, off: nat)
    requires off + 4 <= |v| == |w| && v[off..off + 4] == w[off..off + 4]
    ensures U32(v, off) == U32(w, off)
  {
    var (a, b) := (v[off..off + 4], w[off..off + 4]);
    assert v[off] == a[0] && v[off + 1] == a[1] && v[off + 2] == a[2] && v[off + 3] == a[3];
    assert w[off] == b[0] && w[off + 1] == b[1] && w[off + 2] == b[2] && w[off + 3] == b[3];
  }

  lemma {:induction false} BumpAllEffect(v: seq<byte>, list: seq<byte>, i: nat, delta: nat, off: nat)
    requires |list| % 4 == 0 && 4 * i <= |list| && BumpAll(v, list, i, delta).Some?
    ensures At(list, i, off) <= Touching(list, i, off)
    ensures Moved(v, BumpAll(v, list, i, delta).value, off, At(list, i, off), Touching(list, i, off), delta)
    decreases |list| - 4 * i
  {
    hide U32, Bump;
    if 4 * i < |list| {
      var at := U32(list, 4 * i);
      var u := Bump(v, at, delta);
      BumpAllEffect(u, list, i + 1, delta, off);
      if off + 4 <= |v| {
        BumpEffect(v, at, delta, off);
        if !Near(at, off) {
          SameWord(v, u, off);
        } else {
          var w := BumpAll(u, list, i + 1, delta).value;
          if Touching(list, i + 1, off) == 0 {
            SameWord(u, w, off);
          }
        }
      }
    }
  }

  /** Two updates one after the other. */
  lemma MovedTwice(v: seq<byte>, u: seq<byte>, w: seq<byte>, off: nat, h1: nat, n1: nat, h2: nat, n2: nat, delta: nat)
    requires Moved(v, u, off, h1, n1, delta) && Moved(u, w, off, h2, n2, delta) && h1 <= n1 && h2 <= n2
    ensures Moved(v, w, off, h1 + h2, n1 + n2, delta)
  {
    hide U32;
    if off + 4 <= |v| {
      if n1 == 0 {
        SameWord(v, u, off);
      }
      if n2 == 0 {
        SameWord(u, w, off);
      }
    }
  }

  lemma MovedNot(v: seq<byte>, off: nat, delta: nat)
    ensures Moved(v, v, off, 0, 0, delta)
  {
  }

  // ---------------------------------------------------------------- the cells of the tree

  /** Ref `c` after an update that lists it `Hits` times. */
  ghost predicate Follows(n: Tree, m: Tree, c: Ref, hits: nat, near: nat, delta: nat)
    requires Has(n, c.path) && Has(m, c.path)
  {
    var (a, b) := (Sub(n, c.path).props, Sub(m, c.path).props);
    |a| == |b| && hits <= near && (c.prop < |a| ==> Moved(a[c.prop].val, b[c.prop].val, c.off, hits, near, delta))
  }

  lemma {:induction false} UpdatePropsEffect(n: Tree, fs: seq<PropVal>, delta: nat, prop: nat, off: nat)
    requires UpdateProps(n, fs, delta).Ok?
    ensures var m := UpdateProps(n, fs, delta).tree;
      && m == n.(props := m.props) && Alike(n, m)
      && Follows(n, m, Ref([], prop, off), PropHits(n, fs, prop, off, true), PropHits(n, fs, prop, off, false), delta)
    decreases fs
  {
    hide BumpAll, At, Touching, Follows, Alike;
    AlikeSelf(n);
    if fs == [] {
      FollowsNot(n, n, Ref([], prop, off), delta);
    } else {
      var i := PropIndex(n.props, fs[0].name);
      var v := BumpAll(n.props[i].val, fs[0].val, 0, delta).value;
      var n1 := n.(props := n.props[i := n.props[i].(val := v)]);
      UpdatePropsEffect(n1, fs[1..], delta, prop, off);
      var m := UpdateProps(n, fs, delta).tree;
      OneValueAlike(n, i, v);
      AlikeTwice(n, n1, m);
      AlikePropHits(n, n1, fs[1..], prop, off, true);
      AlikePropHits(n, n1, fs[1..], prop, off, false);
      OnePropFollows(n, i, fs[0].val, delta, prop, off);
      var (h1, t1) := if prop == i then (At(fs[0].val, 0, off), Touching(fs[0].val, 0, off)) else (0, 0);
      FollowsTwice(n, n1, m, Ref([], prop, off), h1, t1,
        PropHits(n, fs[1..], prop, off, true), PropHits(n, fs[1..], prop, off, false), delta);
    }
  }

  /** One property bumped by one list of cells. */
  lemma OnePropFollows(n: Tree, i: nat, list: seq<byte>, delta: nat, prop: nat, off: nat)
    requires i < |n.props| && |list| % 4 == 0 && BumpAll(n.props[i].val, list, 0, delta).Some?
    ensures var m := n.(props := n.props[i := n.props[i].(val := BumpAll(n.props[i].val, list, 0, delta).value)]);
      if prop == i then Follows(n, m, Ref([], prop, off), At(list, 0, off), Touching(list, 0, off), delta)
      else Follows(n, m, Ref([], prop, off), 0, 0, delta)
  {
    hide BumpAll, At, Touching, Moved;
    if prop == i {
      BumpAllEffect(n.props[i].val, list, 0, delta, off);
    } else if prop < |n.props| {
      MovedNot(n.props[prop].val, off, delta);
    }
  }

  lemma FollowsTwice(n: Tree, u: Tree, m: Tree, c: Ref, h1: nat, n1: nat, h2: nat, n2: nat, delta: nat)
    requires Has(n, c.path) && Has(u, c.path) && Has(m, c.path)
    requires Follows(n, u, c, h1, n1, delta) && Follows(u, m, c, h2, n2, delta)
    ensures Follows(n, m, c, h1 + h2, n1 + n2, delta)
  {
    hide Moved;
    var (a, b, d) := (Sub(n, c.path).props, Sub(u, c.path).props, Sub(m, c.path).props);
    if c.prop < |a| {
      MovedTwice(a[c.prop].val, b[c.prop].val, d[c.prop].val, c.off, h1, n1, h2, n2, delta);
    }
  }

  lemma FollowsNot(n: Tree, m: Tree, c: Ref, delta: nat)
    requires Has(n, c.path) && Has(m, c.path) && Sub(n, c.path).props == Sub(m, c.path).props
    ensures Follows(n, m, c, 0, 0, delta)
  {
    hide Moved;
    if c.prop < |Sub(n, c.path).props| {
      MovedNot(Sub(n, c.path).props[c.prop].val, c.off, delta);
    }
  }

  /** An update keeps the shape of the tree, and every cell moves up when it is listed once
      and touched by no other listed cell, and stays when no listed cell touches it. */
  lemma {:induction false} UpdateEffect(n: Tree, fix: Tree, delta: nat, c: Ref)
    requires Update(n, fix, delta).Ok? && Has(n, c.path)
    ensures var m := Update(n, fix, delta).tree;
      && Alike(n, m) && Has(m, c.path)
      && Follows(n, m, c, Hits(n, fix, c, true), Hits(n, fix, c, false), delta)
    decreases fix, |fix.kids| + 1
  {
    hide Follows, PropHits, Alike;
    var u := UpdateProps(n, fix.props, delta).tree;
    UpdatePropsEffect(n, fix.props, delta, c.prop, c.off);
    AlikeHas(n, u, c.path);
    UpdateKidsEffect(u, fix, 0, delta, c);
    assert fix.kids[0..] == fix.kids;
    var m := UpdateKids(u, fix.kids, delta).tree;
    AlikeTwice(n, u, m);
    if c.path == [] {
      FollowsNot(u, m, c, delta);
      FollowsTwice(n, u, m, c, PropHits(n, fix.props, c.prop, c.off, true), PropHits(n, fix.props, c.prop, c.off, false), 0, 0, delta);
    } else {
      SameBelow(n, u, c.path);
      FollowsNot(n, u, c, delta);
      AlikeKidHits(n, u, fix.kids, c, true);
      AlikeKidHits(n, u, fix.kids, c, false);
      FollowsTwice(n, u, m, c, 0, 0, KidHits(n, fix.kids, c, true), KidHits(n, fix.kids, c, false), delta);
    }
  }

  lemma SameBelow(n: Tree, u: Tree, p: Path)
    requires p != [] && n.kids == u.kids && Has(n, p)
    ensures Has(u, p) && Sub(u, p) == Sub(n, p)
  {
  }

  /** The child loop, from fixup child `j` on. */
  lemma {:induction false} UpdateKidsEffect(n: Tree, fix: Tree, j: nat, delta: nat, c: Ref)
    requires j <= |fix.kids| && UpdateKids(n, fix.kids[j..], delta).Ok? && Has(n, c.path)
    ensures var m := UpdateKids(n, fix.kids[j..], delta).tree;
      && Alike(n, m) && m.props == n.props && Has(m, c.path)
      && (c.path != [] ==>
          Follows(n, m, c, KidHits(n, fix.kids[j..], c, true), KidHits(n, fix.kids[j..], c, false), delta))
    decreases fix, |fix.kids| - j
  {
    hide Follows, Update, Hits, Alike, KidIndex, Has, Sub, KidHits;
    var fs := fix.kids[j..];
    AlikeSelf(n);
    if fs == [] {
      if c.path != [] {
        NoKidHits(n, c);
        FollowsNot(n, n, c, delta);
      }
    } else {
      assert fs[0] == fix.kids[j] && fs[1..] == fix.kids[j + 1..];
      var i := KidIndex(n.kids, fs[0].name);
      var k := Update(n.kids[i], fs[0], delta).tree;
      var u := n.(kids := n.kids[i := k]);
      RootHas(n.kids[i]);
      UpdateEffect(n.kids[i], fs[0], delta, Ref([], c.prop, c.off));
      OneKidAlike(n, i, k);
      AlikeHas(n, u, c.path);
      UpdateKidsEffect(u, fix, j + 1, delta, c);
      var m := UpdateKids(u, fs[1..], delta).tree;
      AlikeTwice(n, u, m);
      if c.path != [] {
        AlikeKidHits(n, u, fs[1..], c, true);
        AlikeKidHits(n, u, fs[1..], c, false);
        KidHitsStep(n, fs, c, true);
        KidHitsStep(n, fs, c, false);
        var (h1, t1) := (OneKidHits(n, fs[0], c, true), OneKidHits(n, fs[0], c, false));
        OneKidIs(n, fs[0], c, i);
        if c.path[0] == i {
          var below := c.(path := c.path[1..]);
          UpdateEffect(n.kids[i], fs[0], delta, below);
          BelowKid(n, u, c, h1, t1, delta);
        } else {
          OtherKid(n, i, k, c.path);
          FollowsNot(n, u, c, delta);
        }
        FollowsTwice(n, u, m, c, h1, t1, KidHits(n, fs[1..], c, true), KidHits(n, fs[1..], c, false), delta);
      }
    }
  }

  lemma RootHas(n: Tree)
    ensures Has(n, [])
  {
  }

  /** The share of one fixup child in the hits of a cell. */
  function OneKidHits(n: Tree, f: Tree, c: Ref, exact: bool): nat
    requires c.path != [] && Has(n, c.path)
  {
    if KidIndex(n.kids, f.name) == c.path[0] then Hits(n.kids[c.path[0]], f, c.(path := c.path[1..]), exact) else 0
  }

  lemma OneKidIs(n: Tree, f: Tree, c: Ref, i: nat)
    requires c.path != [] && Has(n, c.path) && i == KidIndex(n.kids, f.name)
    ensures c.path[0] < |n.kids| && Has(n.kids[c.path[0]], c.path[1..])
    ensures i != c.path[0] ==> forall exact :: OneKidHits(n, f, c, exact) == 0
    ensures i == c.path[0] ==> forall exact :: OneKidHits(n, f, c, exact) == Hits(n.kids[i], f, c.(path := c.path[1..]), exact)
  {
    hide Hits, KidIndex;
  }

  lemma KidHitsStep(n: Tree, fs: seq<Tree>, c: Ref, exact: bool)
    requires c.path != [] && Has(n, c.path) && fs != []
    ensures KidHits(n, fs, c, exact) == OneKidHits(n, fs[0], c, exact) + KidHits(n, fs[1..], c, exact)
  {
    hide Hits, KidIndex;
  }

  lemma NoKidHits(n: Tree, c: Ref)
    requires c.path != [] && Has(n, c.path)
    ensures forall exact :: KidHits(n, [], c, exact) == 0
  {
  }

  lemma BelowKid(n: Tree, u: Tree, c: Ref, h: nat, t: nat, delta: nat)
    requires c.path != [] && Has(n, c.path) && Has(u, c.path)
    requires Follows(n.kids[c.path[0]], u.kids[c.path[0]], c.(path := c.path[1..]), h, t, delta)
    ensures Follows(n, u, c, h, t, delta)
  {
    hide Moved;
  }

  lemma OtherKid(n: Tree, i: nat, k: Tree, p: Path)
    requires i < |n.kids| && p != [] && p[0] != i && Has(n, p)
    ensures var u := n.(kids := n.kids[i := k]); Has(u, p) && Sub(u, p) == Sub(n, p)
  {
  }

  // ---------------------------------------------------------------- references

  /** No listed cell touches a phandle property of any node. */
  ghost predicate PhandlesUnlisted(n: Tree, fix: Tree) {
    forall p: Path, i: nat :: Has(n, p) && i < |Sub(n, p).props| && Sub(n, p).props[i].name in {PHANDLE, LINUX_PHANDLE} ==>
      Hits(n, fix, Ref(p, i, 0), false) == 0
  }

  lemma UpdatedPhandle(n: Tree, fix: Tree, delta: nat, p: Path)
    requires Update(n, fix, delta).Ok? && PhandlesUnlisted(n, fix) && Has(n, p)
    ensures var m := Update(n, fix, delta).tree; Has(m, p) && PhandleOf(Sub(m, p)) == PhandleOf(Sub(n, p))
  {
    hide Update, Hits, U32;
    var m := Update(n, fix, delta).tree;
    UpdateEffect(n, fix, delta, Ref(p, 0, 0));
    AlikeHas(n, m, p);
    SameCell(n, fix, delta, p, PHANDLE);
    SameCell(n, fix, delta, p, LINUX_PHANDLE);
  }

  lemma SameCell(n: Tree, fix: Tree, delta: nat, p: Path, name: Name)
    requires Update(n, fix, delta).Ok? && PhandlesUnlisted(n, fix) && Has(n, p) && name in {PHANDLE, LINUX_PHANDLE}
    ensures Has(Update(n, fix, delta).tree, p)
    ensures Cell(Sub(Update(n, fix, delta).tree, p).props, name) == Cell(Sub(n, p).props, name)
  {
    hide Update, Hits, U32;
    var m := Update(n, fix, delta).tree;
    UpdateEffect(n, fix, delta, Ref(p, 0, 0));
    AlikeHas(n, m, p);
    var (a, b) := (Sub(n, p).props, Sub(m, p).props);
    SamePropIndex(a, b, name);
    var i := PropIndex(a, name);
    if i < |a| && |a[i].val| == 4 {
      UpdateEffect(n, fix, delta, Ref(p, i, 0));
      SameWord(a[i].val, b[i].val, 0);
    }
  }

  /** With the phandles untouched, every phandle names the node that it named. */
  lemma {:induction false} SameLookup(n: Tree, m: Tree, v: nat)
    requires Alike(n, m) && forall p :: Has(n, p) ==> Has(m, p) && PhandleOf(Sub(m, p)) == PhandleOf(Sub(n, p))
    ensures NodeOf(m, v) == NodeOf(n, v)
    decreases n, |n.kids| + 1
  {
    hide PhandleOf;
    assert Has(n, []);
    SameLookupKids(n, m, 0, v);
    assert n.kids[0..] == n.kids && m.kids[0..] == m.kids;
  }

  lemma {:induction false} SameLookupKids(n: Tree, m: Tree, j: nat, v: nat)
    requires Alike(n, m) && forall p :: Has(n, p) ==> Has(m, p) && PhandleOf(Sub(m, p)) == PhandleOf(Sub(n, p))
    requires j <= |n.kids|
    ensures NodeOfKids(m.kids[j..], j, v) == NodeOfKids(n.kids[j..], j, v)
    decreases n, |n.kids| - j
  {
    hide PhandleOf;
    if j < |n.kids| {
      forall p | Has(n.kids[j], p)
        ensures Has(m.kids[j], p) && PhandleOf(Sub(m.kids[j], p)) == PhandleOf(Sub(n.kids[j], p))
      {
        assert ([j] + p)[1..] == p;
        assert Has(n, [j] + p);
      }
      SameLookup(n.kids[j], m.kids[j], v);
      assert n.kids[j..][1..] == n.kids[j + 1..] && m.kids[j..][1..] == m.kids[j + 1..];
      SameLookupKids(n, m, j + 1, v);
    }
  }

  /** A cell that the local fixups list exactly once, in a property that holds no phandle,
      names after shifting and updating the node that it named before. */
  lemma ReferenceFollows(o: Tree, fix: Tree, delta: nat, c: Ref, target: Path)
    requires Adjust(o, delta).Ok? && Update(Adjust(o, delta).tree, fix, delta).Ok?
    requires Has(o, c.path) && Has(Adjust(o, delta).tree, c.path)
    requires PhandlesUnlisted(Adjust(o, delta).tree, fix)
    requires Hits(Adjust(o, delta).tree, fix, c, true) == 1 && Hits(Adjust(o, delta).tree, fix, c, false) == 1
    requires var ps := Sub(o, c.path).props;
      && c.prop < |ps| && PropIndex(ps, ps[c.prop].name) == c.prop && c.off + 4 <= |ps[c.prop].val|
      && ps[c.prop].name !in {PHANDLE, LINUX_PHANDLE}
      && U32(ps[c.prop].val, c.off) > 0 && NodeOf(o, U32(ps[c.prop].val, c.off)) == Some(target)
    ensures var v := U32(Sub(o, c.path).props[c.prop].val, c.off);
      var o2 := Update(Adjust(o, delta).tree, fix, delta).tree;
      && Has(o2, c.path) && c.prop < |Sub(o2, c.path).props| && c.off + 4 <= |Sub(o2, c.path).props[c.prop].val|
      && U32(Sub(o2, c.path).props[c.prop].val, c.off) == v + delta
      && NodeOf(o2, v + delta) == Some(target)
  {
    hide Update, Adjust, Hits, U32, PhandleOf, NodeOf, PhandlesUnlisted;
    var o1 := Adjust(o, delta).tree;
    var o2 := Update(o1, fix, delta).tree;
    var name := Sub(o, c.path).props[c.prop].name;
    var v := U32(Sub(o, c.path).props[c.prop].val, c.off);
    KeptProp(o, delta, c.path, c.prop);
    UpdateEffect(o1, fix, delta, c);
    AlikeHas(o1, o2, c.path);
    TargetShifted(o, delta, v, target);
    LookupShifted(o, delta, v);
    forall p | Has(o1, p) ensures Has(o2, p) && PhandleOf(Sub(o2, p)) == PhandleOf(Sub(o1, p)) {
      UpdatedPhandle(o1, fix, delta, p);
    }
    SameLookup(o1, o2, v + delta);
  }

  /** A property that holds no phandle is untouched by shifting, value and place. */
  lemma {:induction false} KeptProp(o: Tree, delta: nat, p: Path, i: nat)
    requires Adjust(o, delta).Ok? && Has(o, p) && i < |Sub(o, p).props|
    requires Sub(o, p).props[i].name !in {PHANDLE, LINUX_PHANDLE}
    ensures var o1 := Adjust(o, delta).tree;
      Has(o1, p) && |Sub(o1, p).props| == |Sub(o, p).props| && Sub(o1, p).props[i] == Sub(o, p).props[i]
    decreases |p|
  {
    hide U32, BE32;
    if p != [] {
      AdjustedKid(o.kids, delta, p[0]);
      KeptProp(o.kids[p[0]], delta, p[1..], i);
    }
  }

  /** The node that a phandle names has room for the shifted one. */
  lemma TargetShifted(o: Tree, delta: nat, v: nat, target: Path)
    requires Adjust(o, delta).Ok? && v > 0 && NodeOf(o, v) == Some(target)
    ensures v + delta < MINUS_ONE
  {
    hide Adjust, PhandleOf, HasPhandle;
    NodeOfIs(o, v, target);
    AdjustedAt(o, delta, target, PHANDLE);
  }

  lemma {:induction false} NodeOfIs(t: Tree, v: nat, p: Path)
    requires NodeOf(t, v) == Some(p)
    ensures Has(t, p) && PhandleOf(Sub(t, p)) == v
    decreases t, |t.kids| + 1
  {
    hide PhandleOf;
    if PhandleOf(t) != v {
      assert t.kids[0..] == t.kids;
      NodeOfKidsIs(t, 0, v, p);
    }
  }

  lemma {:induction false} NodeOfKidsIs(t: Tree, j: nat, v: nat, p: Path)
    requires j <= |t.kids| && NodeOfKids(t.kids[j..], j, v) == Some(p)
    ensures Has(t, p) && PhandleOf(Sub(t, p)) == v && p != []
    decreases t, |t.kids| - j
  {
    hide PhandleOf;
    assert t.kids[j..][1..] == t.kids[j + 1..];
    if NodeOf(t.kids[j], v).Some? {
      NodeOfIs(t.kids[j], v, NodeOf(t.kids[j], v).value);
      assert p[1..] == NodeOf(t.kids[j], v).value;
    } else {
      NodeOfKidsIs(t, j + 1, v, p);
    }
  }
}
