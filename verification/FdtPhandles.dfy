/** Renumbering an overlay's phandles (fdt_overlay.c) so that they clash with none of the
    base tree, and the references to them that must follow. */
module FdtPhandles {
  import opened Wrappers
  import opened Bytes
  import opened FdtFormat
  import opened FdtTree
  import opened FdtEdit
  import opened FdtEditTheorems
  import opened FdtUnion

  const MINUS_ONE: nat := 0xffff_ffff

  const PHANDLE: seq<byte> := Text("phandle")
  const LINUX_PHANDLE: seq<byte> := Text("linux,phandle")

  lemma PhandleNamesDiffer()
    ensures PHANDLE != LINUX_PHANDLE
  {
    assert |PHANDLE| == 7 && |LINUX_PHANDLE| == 13;
  }

  /** The four-byte value of a property, if that is what it has. */
  function Cell(ps: seq<PropVal>, name: Name): Option<nat> {
    match Val(ps, name)
    case Some(v) => if |v| == 4 then Some(U32(v, 0)) else None
    case None => None
  }

  /** fdt_get_phandle. */
  function PhandleOf(n: Tree): (v: nat)
    ensures v < WORD
  {
    match Cell(n.props, PHANDLE)
    case Some(v) => v
    case None => match Cell(n.props, LINUX_PHANDLE) case Some(v) => v case None => 0
  }

  function Max(a: nat, b: nat): nat {
    if a < b then b else a
  }

  /** fdt_find_max_phandle over a whole tree. */
  function MaxPhandle(t: Tree): (m: nat)
    decreases t
  {
    Max(PhandleOf(t), MaxOfKids(t.kids))
  }

  function MaxOfKids(ks: seq<Tree>): (m: nat)
    decreases ks
  {
    if ks == [] then 0 else Max(MaxPhandle(ks[0]), MaxOfKids(ks[1..]))
  }

  lemma {:induction false} MaxIsMax(t: Tree, p: Path)
    requires Has(t, p)
    ensures PhandleOf(Sub(t, p)) <= MaxPhandle(t)
    decreases |p|
  {
    hide PhandleOf;
    if p != [] {
      MaxIsMax(t.kids[p[0]], p[1..]);
      KidBelowMax(t.kids, p[0]);
    }
  }

  lemma {:induction false} KidBelowMax(ks: seq<Tree>, i: nat)
    requires i < |ks|
    ensures MaxPhandle(ks[i]) <= MaxOfKids(ks)
  {
    hide MaxPhandle;
    if i > 0 {
      KidBelowMax(ks[1..], i - 1);
    }
  }

  datatype Outcome = Ok(tree: Tree) | Fail(err: int)

  // ---------------------------------------------------------------- shifting phandles

  function SetCell(ps: seq<PropVal>, i: nat, v: nat): (r: seq<PropVal>)
    requires i < |ps| && v < WORD
    ensures |r| == |ps|
  {
    ps[i := ps[i].(val := BE32(v))]
  }

  /** overlay_phandle_add_offset; a property that is not there is left alone. */
  function AddOffset(n: Tree, name: Name, delta: nat): (r: Outcome)
    ensures r.Ok? ==> r.tree == n.(props := r.tree.props) && |r.tree.props| == |n.props|
  {
    var i := PropIndex(n.props, name);
    if i == |n.props| then Ok(n)
    else if |n.props[i].val| != 4 then Fail(-BADPHANDLE)
    else
      var v := U32(n.props[i].val, 0);
      if v + delta >= WORD || v + delta == MINUS_ONE then Fail(-NOPHANDLES)
      else Ok(n.(props := SetCell(n.props, i, v + delta)))
  }

  /** The properties of one node. */
  function AdjustProps(n: Tree, delta: nat): (r: Outcome)
    ensures r.Ok? ==> r.tree == n.(props := r.tree.props) && |r.tree.props| == |n.props|
  {
    match AddOffset(n, PHANDLE, delta)
    case Fail(e) => Fail(e)
    case Ok(m) => AddOffset(m, LINUX_PHANDLE, delta)
  }

  /** overlay_adjust_node_phandles. */
  function Adjust(t: Tree, delta: nat): (r: Outcome)
    ensures r.Ok? ==> r.tree.name == t.name && |r.tree.kids| == |t.kids|
    decreases t
  {
    match AdjustProps(t, delta)
    case Fail(e) => Fail(e)
    case Ok(m) =>
      match AdjustKids(t.kids, delta)
      case None => Fail(FirstFailure(t.kids, delta))
      case Some(ks) => Ok(m.(kids := ks))
  }

  function AdjustKids(ks: seq<Tree>, delta: nat): (r: Option<seq<Tree>>)
    ensures r.Some? ==> |r.value| == |ks|
    decreases ks
  {
    if ks == [] then Some([])
    else match Adjust(ks[0], delta)
      case Fail(e) => None
      case Ok(k) => match AdjustKids(ks[1..], delta) case None => None case Some(rest) => Some([k] + rest)
  }

  /** The error of the first child that cannot be adjusted. */
  function FirstFailure(ks: seq<Tree>, delta: nat): int
    decreases ks
  {
    if ks == [] then 0
    else match Adjust(ks[0], delta) case Fail(e) => e case Ok(_) => FirstFailure(ks[1..], delta)
  }

  predicate HasPhandle(n: Tree) {
    Val(n.props, PHANDLE).Some? || Val(n.props, LINUX_PHANDLE).Some?
  }

  lemma {:induction false} IndexSame(ps: seq<PropVal>, i: nat, v: seq<byte>, name: Name)
    requires i < |ps|
    ensures PropIndex(ps[i := ps[i].(val := v)], name) == PropIndex(ps, name)
    decreases ps
  {
    var qs := ps[i := ps[i].(val := v)];
    if i > 0 && ps[0].name != name {
      assert qs[1..] == ps[1..][i - 1 := ps[1..][i - 1].(val := v)];
      IndexSame(ps[1..], i - 1, v, name);
    } else if ps[0].name != name {
      assert qs[1..] == ps[1..];
    }
  }

  lemma OffsetEffect(n: Tree, name: Name, delta: nat, other: Name)
    requires AddOffset(n, name, delta).Ok?
    ensures var m := AddOffset(n, name, delta).tree;
      && (other != name ==> Val(m.props, other) == Val(n.props, other))
      && (Val(n.props, name).None? ==> m == n)
      && (Val(n.props, name).Some? ==>
          && Cell(n.props, name).Some? && Cell(m.props, name) == Some(Cell(n.props, name).value + delta)
          && Cell(n.props, name).value + delta < MINUS_ONE)
  {
    hide U32, BE32;
    var i := PropIndex(n.props, name);
    if i < |n.props| {
      var v := U32(n.props[i].val, 0);
      IndexSame(n.props, i, BE32(v + delta), name);
      IndexSame(n.props, i, BE32(v + delta), other);
      WordRoundTrip(v + delta);
    }
  }

  /** One node: its phandle moves up by `delta`, and only its phandle properties change. */
  lemma AdjustedNode(n: Tree, delta: nat, other: Name)
    requires AdjustProps(n, delta).Ok?
    ensures var m := AdjustProps(n, delta).tree;
      && HasPhandle(m) == HasPhandle(n)
      && PhandleOf(m) == (if HasPhandle(n) then PhandleOf(n) + delta else 0)
      && PhandleOf(m) < MINUS_ONE
      && (!HasPhandle(n) ==> PhandleOf(n) == 0)
      && (other != PHANDLE && other != LINUX_PHANDLE ==> Val(m.props, other) == Val(n.props, other))
  {
    hide AddOffset, Val;
    PhandleNamesDiffer();
    var m := AddOffset(n, PHANDLE, delta).tree;
    OffsetEffect(n, PHANDLE, delta, LINUX_PHANDLE);
    OffsetEffect(n, PHANDLE, delta, other);
    OffsetEffect(m, LINUX_PHANDLE, delta, PHANDLE);
    OffsetEffect(m, LINUX_PHANDLE, delta, other);
  }

  lemma SameProps(n: Tree, m: Tree)
    requires n.props == m.props
    ensures PhandleOf(n) == PhandleOf(m) && HasPhandle(n) == HasPhandle(m)
  {
  }

  lemma {:induction false} AdjustedKid(ks: seq<Tree>, delta: nat, i: nat)
    requires AdjustKids(ks, delta).Some? && i < |ks|
    ensures Adjust(ks[i], delta) == Ok(AdjustKids(ks, delta).value[i])
    decreases ks
  {
    hide Adjust;
    if i > 0 {
      AdjustedKid(ks[1..], delta, i - 1);
    }
  }

  /** Every node of an adjusted tree: the same place, its phandle moved up by `delta`. */
  lemma {:induction false} AdjustedAt(t: Tree, delta: nat, p: Path, other: Name)
    requires Adjust(t, delta).Ok?
    ensures var t' := Adjust(t, delta).tree;
      && (Has(t', p) <==> Has(t, p))
      && (Has(t, p) ==>
          var (n, m) := (Sub(t, p), Sub(t', p));
          && m.name == n.name && HasPhandle(m) == HasPhandle(n)
          && PhandleOf(m) == (if HasPhandle(n) then PhandleOf(n) + delta else 0) && PhandleOf(m) < MINUS_ONE
          && (!HasPhandle(n) ==> PhandleOf(n) == 0)
          && (other != PHANDLE && other != LINUX_PHANDLE ==> Val(m.props, other) == Val(n.props, other)))
    decreases |p|
  {
    hide PhandleOf, HasPhandle, Val, AdjustProps;
    AdjustedNode(t, delta, other);
    SameProps(AdjustProps(t, delta).tree, Adjust(t, delta).tree);
    if p != [] && p[0] < |t.kids| {
      AdjustedKid(t.kids, delta, p[0]);
      AdjustedAt(t.kids[p[0]], delta, p[1..], other);
    }
  }

  /** After shifting by the base's largest phandle no phandle of the overlay is one of
      the base, given that the overlay's phandles are not 0. */
  lemma NoClash(base: Tree, o: Tree, p: Path, q: Path)
    requires Adjust(o, MaxPhandle(base)).Ok? && Has(base, q) && Has(o, p)
    requires HasPhandle(Sub(o, p)) ==> PhandleOf(Sub(o, p)) > 0
    ensures var o' := Adjust(o, MaxPhandle(base)).tree;
      && Has(o', p)
      && (HasPhandle(Sub(o, p)) ==>
          MaxPhandle(base) < PhandleOf(Sub(o', p)) < MINUS_ONE && PhandleOf(Sub(o', p)) != PhandleOf(Sub(base, q)))
  {
    hide PhandleOf, HasPhandle, Adjust, MaxPhandle;
    AdjustedAt(o, MaxPhandle(base), p, PHANDLE);
    MaxIsMax(base, q);
  }

  /** The phandle on which a shift fails with NOPHANDLES. */
  lemma {:induction false} RunsOut(t: Tree, delta: nat) returns (p: Path, name: Name)
    requires Adjust(t, delta) == Fail(-NOPHANDLES)
    ensures Has(t, p) && name in {PHANDLE, LINUX_PHANDLE}
    ensures Cell(Sub(t, p).props, name).Some? && Cell(Sub(t, p).props, name).value + delta >= MINUS_ONE
    decreases t, |t.kids| + 1
  {
    hide U32, BE32;
    p, name := [], PHANDLE;
    if AdjustProps(t, delta).Ok? {
      p, name := RunsOutBelow(t, 0, delta);
    } else if AddOffset(t, PHANDLE, delta).Ok? {
      PhandleNamesDiffer();
      OffsetEffect(t, PHANDLE, delta, LINUX_PHANDLE);
      name := LINUX_PHANDLE;
    }
  }

  lemma {:induction false} RunsOutBelow(t: Tree, i: nat, delta: nat) returns (p: Path, name: Name)
    requires i <= |t.kids| && AdjustKids(t.kids[i..], delta).None? && FirstFailure(t.kids[i..], delta) == -NOPHANDLES
    ensures Has(t, p) && name in {PHANDLE, LINUX_PHANDLE}
    ensures Cell(Sub(t, p).props, name).Some? && Cell(Sub(t, p).props, name).value + delta >= MINUS_ONE
    decreases t, |t.kids| - i
  {
    hide Cell, Adjust;
    var ks := t.kids[i..];
    assert ks[0] == t.kids[i];
    if Adjust(ks[0], delta).Fail? {
      var q;
      q, name := RunsOut(ks[0], delta);
      p := [i] + q;
      assert p[1..] == q;
    } else {
      assert ks[1..] == t.kids[i + 1..];
      p, name := RunsOutBelow(t, i + 1, delta);
    }
  }

  /** Every phandle property is a single cell. */
  ghost predicate SingleCells(t: Tree) {
    forall p: Path, name: Name :: Has(t, p) && name in {PHANDLE, LINUX_PHANDLE} && Val(Sub(t, p).props, name).Some? ==>
      |Val(Sub(t, p).props, name).value| == 4
  }

  /** This phandle leaves the valid range when it is shifted. */
  ghost predicate Overflows(t: Tree, delta: nat, p: Path, name: Name) {
    && Has(t, p) && name in {PHANDLE, LINUX_PHANDLE}
    && Cell(Sub(t, p).props, name).Some? && Cell(Sub(t, p).props, name).value + delta >= MINUS_ONE
  }

  /** A shift that succeeds finds single cells that stay in the range. */
  lemma {:induction false} InRange(t: Tree, delta: nat, p: Path, name: Name)
    requires Adjust(t, delta).Ok? && Has(t, p) && name in {PHANDLE, LINUX_PHANDLE} && Val(Sub(t, p).props, name).Some?
    ensures Cell(Sub(t, p).props, name).Some? && Cell(Sub(t, p).props, name).value + delta < MINUS_ONE
    decreases |p|
  {
    hide U32, Val, AddOffset;
    if p == [] {
      PhandleNamesDiffer();
      OffsetEffect(t, PHANDLE, delta, LINUX_PHANDLE);
      OffsetEffect(AddOffset(t, PHANDLE, delta).tree, LINUX_PHANDLE, delta, PHANDLE);
    } else {
      AdjustedKid(t.kids, delta, p[0]);
      InRange(t.kids[p[0]], delta, p[1..], name);
    }
  }

  lemma KidCells(t: Tree, i: nat)
    requires SingleCells(t) && i < |t.kids|
    ensures SingleCells(t.kids[i])
  {
    hide Val;
    forall p: Path, name: Name | Has(t.kids[i], p) && name in {PHANDLE, LINUX_PHANDLE} && Val(Sub(t.kids[i], p).props, name).Some?
      ensures |Val(Sub(t.kids[i], p).props, name).value| == 4
    {
      assert ([i] + p)[1..] == p;
      assert Has(t, [i] + p) && Sub(t, [i] + p) == Sub(t.kids[i], p);
    }
  }

  /** With single cells only, running out of phandles is the one way to fail. */
  lemma {:induction false} OnlyRunsOut(t: Tree, delta: nat)
    requires SingleCells(t) && Adjust(t, delta).Fail?
    ensures Adjust(t, delta) == Fail(-NOPHANDLES)
    decreases t, |t.kids| + 1
  {
    hide Val, AddOffset;
    assert Has(t, []) && Sub(t, []) == t;
    if AdjustProps(t, delta).Ok? {
      assert t.kids[0..] == t.kids;
      OnlyRunsOutBelow(t, 0, delta);
    } else if AddOffset(t, PHANDLE, delta).Ok? {
      PhandleNamesDiffer();
      OffsetEffect(t, PHANDLE, delta, LINUX_PHANDLE);
      OffsetFails(AddOffset(t, PHANDLE, delta).tree, LINUX_PHANDLE, delta);
    } else {
      OffsetFails(t, PHANDLE, delta);
    }
  }

  lemma OffsetFails(n: Tree, name: Name, delta: nat)
    requires AddOffset(n, name, delta).Fail?
    ensures Val(n.props, name).Some?
    ensures AddOffset(n, name, delta).err == if |Val(n.props, name).value| == 4 then -NOPHANDLES else -BADPHANDLE
  {
    hide U32, BE32;
  }

  lemma {:induction false} OnlyRunsOutBelow(t: Tree, i: nat, delta: nat)
    requires SingleCells(t) && i <= |t.kids| && AdjustKids(t.kids[i..], delta).None?
    ensures FirstFailure(t.kids[i..], delta) == -NOPHANDLES
    decreases t, |t.kids| - i
  {
    hide Adjust, SingleCells;
    var ks := t.kids[i..];
    assert ks[0] == t.kids[i] && ks[1..] == t.kids[i + 1..];
    KidCells(t, i);
    if Adjust(ks[0], delta).Fail? {
      OnlyRunsOut(ks[0], delta);
    } else {
      OnlyRunsOutBelow(t, i + 1, delta);
    }
  }

  /** Shifting fails with NOPHANDLES if and only if some phandle would leave the range. */
  lemma RunsOutIff(t: Tree, delta: nat)
    requires SingleCells(t)
    ensures Adjust(t, delta) == Fail(-NOPHANDLES) <==> exists p: Path, name: Name :: Overflows(t, delta, p, name)
  {
    hide Adjust, Cell, Val;
    if Adjust(t, delta) == Fail(-NOPHANDLES) {
      var p, name := RunsOut(t, delta);
      assert Overflows(t, delta, p, name);
    } else {
      if Adjust(t, delta).Fail? {
        OnlyRunsOut(t, delta);
      }
      forall p: Path, name: Name ensures !Overflows(t, delta, p, name) {
        if Has(t, p) && name in {PHANDLE, LINUX_PHANDLE} && Cell(Sub(t, p).props, name).Some? {
          CellVal(Sub(t, p).props, name);
          InRange(t, delta, p, name);
        }
      }
    }
  }

  lemma CellVal(ps: seq<PropVal>, name: Name)
    ensures Cell(ps, name).Some? ==> Val(ps, name).Some?
  {
  }

  // ---------------------------------------------------------------- looking a phandle up

  /** fdt_node_offset_by_phandle: the first node, in the order of the block. */
  function NodeOf(t: Tree, v: nat): Option<Path>
    decreases t
  {
    if PhandleOf(t) == v then Some([]) else NodeOfKids(t.kids, 0, v)
  }

  function NodeOfKids(ks: seq<Tree>, i: nat, v: nat): Option<Path>
    decreases ks
  {
    if ks == [] then None
    else match NodeOf(ks[0], v)
      case Some(p) => Some([i] + p)
      case None => NodeOfKids(ks[1..], i + 1, v)
  }

  /** A shifted phandle names the node that it named before. */
  lemma {:induction false} LookupShifted(t: Tree, delta: nat, v: nat)
    requires Adjust(t, delta).Ok? && v > 0
    ensures NodeOf(Adjust(t, delta).tree, v + delta) == NodeOf(t, v)
    decreases t, 0
  {
    hide PhandleOf, HasPhandle, AdjustProps;
    AdjustedNode(t, delta, PHANDLE);
    AdjustedAt(t, delta, [], PHANDLE);
    LookupKids(t.kids, delta, v, 0);
  }

  lemma {:induction false} LookupKids(ks: seq<Tree>, delta: nat, v: nat, i: nat)
    requires AdjustKids(ks, delta).Some? && v > 0
    ensures NodeOfKids(AdjustKids(ks, delta).value, i, v + delta) == NodeOfKids(ks, i, v)
    decreases ks
  {
    hide PhandleOf, Adjust;
    if ks != [] {
      LookupShifted(ks[0], delta, v);
      LookupKids(ks[1..], delta, v, i + 1);
    }
  }
}
