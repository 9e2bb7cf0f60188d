/** Merging an overlay node into a base blob, as overlay_apply_node of fdt_overlay.c
    does it, and the tree operation that it is. */
module FdtOverlay {
  import opened Bytes
  import opened FdtFormat
  import opened FdtTree
  import opened FdtRead
  import opened FdtEdit
  import opened FdtEditBlocks
  import opened FdtEditTheorems
  import opened FdtEditResults

  // ---------------------------------------------------------------- iteration over children

  /** The loop of fdt_next_subnode. */
  function NextSubLoop(s: seq<byte>, p: Place): (r: int)
    requires p.offset >= 0 && p.depth >= 1 ==> p.offset < |s|
    ensures r >= 0 ==> p.offset <= r < |s| && p.offset >= 0
    ensures r == -NOTFOUND || r >= 0
    decreases if p.offset >= 0 && p.depth >= 1 then |s| - p.offset else 0
  {
    if p.offset < 0 || p.depth < 1 then -NOTFOUND
    else if p.depth > 1 then NextSubLoop(s, NextNode(s, p.offset, p.depth))
    else p.offset
  }

  function FirstSubnode(s: seq<byte>, node: int): (r: int)
    ensures r >= 0 && node >= 0 ==> node < r < |s|
  {
    var p := NextNode(s, node, 0);
    if p.offset < 0 || p.depth != 1 then -NOTFOUND else p.offset
  }

  function NextSubnode(s: seq<byte>, node: int): (r: int)
    ensures r >= 0 && node >= 0 ==> node < r < |s|
  {
    NextSubLoop(s, NextNode(s, node, 1))
  }

  // ---------------------------------------------------------------- applying a node

  /** The property loop of overlay_apply_node, from the overlay property at `prop`. */
  function ApplyProps(b: Blob, target: nat, o: Blob, prop: int): (r: Edited)
    requires Sound(b) && Sound(o)
    ensures Sound(r.blob)
    decreases |Struct(o)| - prop
  {
    hide U32, NextTag, NulFrom, SetProp, StringAt;
    var s, t := Struct(o), Strings(o);
    NextTagFacts(s, prop);
    if prop < 0 || CheckPropOffset(s, prop) < 0 then Edited(0, b)
    else
      var name := StringAt(t, U32(s, prop + 8));
      if name.None? then Edited(StringError(t, U32(s, prop + 8)), b)
      else
        var len := U32(s, prop + 4);
        var e := SetProp(b, target, name.value, s[prop + 12..prop + 12 + len]);
        if e.err != 0 then e
        else
          var next := NextProp(s, prop);
          if next < 0 then e else ApplyProps(e.blob, target, o, next)
  }

  /** overlay_apply_node: the overlay node at `node` merged into the base node at `target`. */
  function ApplyNode(b: Blob, target: nat, o: Blob, node: nat): (r: Edited)
    requires Sound(b) && Sound(o)
    ensures Sound(r.blob)
    decreases |Struct(o)| - node, 0
  {
    hide U32, NextTag, NulFrom, ApplyProps;
    var e := ApplyProps(b, target, o, FirstProp(Struct(o), node));
    if e.err != 0 then e
    else
      var first := FirstSubnode(Struct(o), node);
      if first < 0 then e else ApplyKids(e.blob, target, o, first)
  }

  /** The child loop of overlay_apply_node, from the overlay child at `sub`. */
  function ApplyKids(b: Blob, target: nat, o: Blob, sub: nat): (r: Edited)
    requires Sound(b) && Sound(o) && sub < |Struct(o)|
    ensures Sound(r.blob)
    decreases |Struct(o)| - sub, 1
  {
    hide U32, NextTag, NulFrom, AddSubnode;
    var s := Struct(o);
    var name := if sub + 4 <= |s| then NodeName(s, sub) else [];
    var a := AddSubnode(b, target, name);
    var kid := if a.err == -EXISTS then SubnodeOffset(Struct(b), target, name) else a.err;
    if a.err == -EXISTS && kid == -NOTFOUND then Edited(-INTERNAL, a.blob)
    else if kid < 0 then Edited(kid, a.blob)
    else
      var e := ApplyNode(a.blob, kid, o, sub);
      if e.err != 0 then e
      else
        var next := NextSubnode(s, sub);
        if next < 0 then e else ApplyKids(e.blob, target, o, next)
  }

  // ---------------------------------------------------------------- the tree operation

  function MergeProps(n: Tree, ps: seq<PropVal>): Tree
    decreases ps
  {
    if ps == [] then n else MergeProps(WithProp(n, ps[0].name, ps[0].val), ps[1..])
  }

  /** The child that answers to `name`, made if there is none, and its index. */
  function WithChild(n: Tree, name: seq<byte>): (r: (Tree, nat))
    ensures r.1 < |r.0.kids|
  {
    var i := KidIndex(n.kids, name);
    if i < |n.kids| then (n, i) else (WithKid(n, name), 0)
  }

  function Merge(n: Tree, o: Tree): Tree
    decreases o
  {
    MergeKids(MergeProps(n, o.props), o.kids)
  }

  function MergeKids(n: Tree, ks: seq<Tree>): Tree
    decreases ks
  {
    if ks == [] then n
    else
      var (m, i) := WithChild(n, ks[0].name);
      MergeKids(m.(kids := m.kids[i := Merge(m.kids[i], ks[0])]), ks[1..])
  }
}
