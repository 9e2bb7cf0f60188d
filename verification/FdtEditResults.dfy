/** The editors against the tree: one theorem for each editor of fdt_rw.c and each
    nop-out editor of fdt_wip.c. */
module FdtEditResults {
  import opened Bytes
  import opened FdtFormat
  import opened FdtTree
  import opened FdtRead
  import opened FdtEdit
  import opened FdtEditBlocks
  import opened FdtEditTheorems

  /** The property called `name` of a located node, as its readers find it. */
  lemma FindInNode(b: Blob, toks: seq<Token>, t: Tree, r: seq<Token>, p: Path, name: seq<byte>) returns (q: seq<Token>)
    requires Reads(b, toks, t) && Locates(b, toks, t, r, p)
    ensures var n := Sub(t, p);
      var i := PropIndex(n.props, name);
      var pos := GetProp(Struct(b), Strings(b), At(toks, r), name);
      if i < |n.props| then
        && Suffix(q, toks) && q != [] && q[0].Prop? && |q| < |r|
        && pos == At(toks, q) >= 0
        && Strip(Items(q, Strings(b))) == SerProps(n.props[i..]) + Rest(n, After(t, p))
      else pos == -NOTFOUND
  {
    hide Ser, Before, After, Strings, Struct, RwProbe, NextTag, U32, NulFrom, At, GetPropFrom, NextPropFrom, Rest;
    var s, st := Struct(b), Strings(b);
    var n, z := Sub(t, p), After(t, p);
    Located(b, toks, t, r, p);
    StepAt(s, toks, r);
    var x := Items(r[1..], st);
    q := ScanProp(s, st, toks, r[1..], name);
    StripFindProp(x, name);
    StripAfterProps(x);
    FindPropBody(n, z, name);
    RestIs(n, z);
  }

  /** The item and the remaining items of a property token. */
  lemma FirstItem(q: seq<Token>, st: seq<byte>)
    requires q != [] && !q[0].Nop?
    ensures Strip(Items(q, st)) == [ItemOf(q[0], st)] + Strip(Items(q[1..], st))
  {
    ItemsTail(q, st);
  }

  /** A found property's token, its place in the block and in the node. */
  lemma FoundProp(b: Blob, toks: seq<Token>, t: Tree, r: seq<Token>, p: Path, name: seq<byte>) returns (q: seq<Token>, lead: seq<Item>)
    requires Reads(b, toks, t) && Locates(b, toks, t, r, p)
    requires PropIndex(Sub(t, p).props, name) < |Sub(t, p).props|
    ensures var n := Sub(t, p);
      var i := PropIndex(n.props, name);
      var y := SerProps(n.props[i + 1..]) + Rest(n, After(t, p));
      && Suffix(q, toks) && q != [] && q[0].Prop? && |q| < |r| && Suffix(q[1..], toks)
      && GetProp(Struct(b), Strings(b), At(toks, r), name) == At(toks, q)
      && lead == [IBegin(n.name)] + SerProps(n.props[..i])
      && Strip(Items(Lead(toks, q), Strings(b))) == Before(t, p) + lead
      && ItemOf(q[0], Strings(b)) == PropItem(n.props[i])
      && Strip(Items(q[1..], Strings(b))) == y
  {
    hide Ser, Before, After, Strings, Struct, RwProbe, GetProp, At, Rest, Holds;
    var st := Strings(b);
    var n, z := Sub(t, p), After(t, p);
    var i := PropIndex(n.props, name);
    q := FindInNode(b, toks, t, r, p, name);
    SuffixTail(q, toks);
    PropShape(n, i, n.props[i], z);
    lead := [IBegin(n.name)] + SerProps(n.props[..i]);
    LeadInside(b, toks, t, r, p, q, lead, Strip(Items(q, st)));
    FirstItem(q, st);
    var y := SerProps(n.props[i + 1..]) + Rest(n, z);
    assert ([ItemOf(q[0], st)] + Strip(Items(q[1..], st)))[1..] == ([PropItem(n.props[i])] + y)[1..];
    assert ([ItemOf(q[0], st)] + Strip(Items(q[1..], st)))[0] == ([PropItem(n.props[i])] + y)[0];
  }

  /** The bytes and tokens around a token that is replaced. */
  lemma ReplaceOne(s: seq<byte>, toks: seq<Token>, q: seq<Token>, m: seq<Token>, s': seq<byte>)
    requires Holds(s, toks) && Suffix(q, toks) && q != [] && AllOk(m)
    requires At(toks, q) + Size(q[0]) <= |s|
    requires s' == s[..At(toks, q)] + Flat(m) + s[At(toks, q) + Size(q[0])..]
    ensures Holds(s', Lead(toks, q) + m + q[1..])
  {
    hide BytesOf, Flat, Size;
    Rejoin(toks, q);
    LenSuffix(toks, q);
    LenOne(q[0]);
    assert Lead(toks, q) + [q[0]] + q[1..] == toks;
    Replace(s, Lead(toks, q), [q[0]], q[1..], m, s');
  }

  lemma LenOne(k: Token)
    ensures Len([k]) == Size(k)
  {
    assert [k][1..] == [];
  }

  /** Tokens put in at the position of a suffix. */
  lemma InsertAt(s: seq<byte>, toks: seq<Token>, q: seq<Token>, m: seq<Token>, s': seq<byte>)
    requires Holds(s, toks) && Suffix(q, toks) && AllOk(m)
    requires At(toks, q) <= |s|
    requires s' == s[..At(toks, q)] + Flat(m) + s[At(toks, q)..]
    ensures Holds(s', Lead(toks, q) + m + q)
  {
    hide BytesOf, Flat, Size;
    Rejoin(toks, q);
    LenSuffix(toks, q);
    assert Lead(toks, q) + [] + q == toks;
    Replace(s, Lead(toks, q), [], q, m, s');
  }

  /** Tokens taken out between two suffixes. */
  lemma RemoveTo(s: seq<byte>, toks: seq<Token>, q: seq<Token>, c: seq<Token>, m: seq<Token>, s': seq<byte>)
    requires Holds(s, toks) && Suffix(q, toks) && Suffix(c, q) && Suffix(c, toks) && AllOk(m)
    requires At(toks, q) <= At(toks, c) <= |s|
    requires s' == s[..At(toks, q)] + Flat(m) + s[At(toks, c)..]
    ensures Holds(s', Lead(toks, q) + m + c)
  {
    hide BytesOf, Flat, Size, Len, Holds, AllOk;
    var was := q[..|q| - |c|];
    Rejoin(toks, q);
    Rejoin(q, c);
    LenSuffix(toks, q);
    LenSuffix(toks, c);
    LenConcat(was, c);
    Triple(toks, q, was, c);
    Between(toks, q, was, c);
    Replace(s, Lead(toks, q), was, c, m, s');
  }

  lemma Between(toks: seq<Token>, q: seq<Token>, was: seq<Token>, c: seq<Token>)
    requires Suffix(q, toks) && Suffix(c, toks) && q == was + c
    ensures Len(Lead(toks, q)) == At(toks, q) && Len(Lead(toks, q)) + Len(was) == At(toks, c)
  {
    hide Len;
    LenSuffix(toks, q);
    LenConcat(was, c);
  }

  lemma Triple<T>(toks: seq<T>, q: seq<T>, was: seq<T>, c: seq<T>)
    requires |q| <= |toks| && toks == toks[..|toks| - |q|] + q && q == was + c
    ensures toks[..|toks| - |q|] + was + c == toks
  {
  }

  lemma FlatSingle(k: Token)
    requires TokenOk(k)
    ensures AllOk([k]) && Flat([k]) == BytesOf(k)
  {
    FlatOne(k);
  }

  lemma PropValueAt(s: seq<byte>, toks: seq<Token>, q: seq<Token>)
    requires Holds(s, toks) && Suffix(q, toks) && q != [] && q[0].Prop? && |s| % 4 == 0
    ensures var pos := At(toks, q);
      && NextTag(s, pos).tag == PROP && pos + 12 <= |s|
      && PropLen(s, pos) == |q[0].val| && pos + 12 + |q[0].val| <= |s|
      && s[pos + 12..pos + 12 + |q[0].val|] == q[0].val
      && U32(s, pos + 8) == q[0].nameoff
      && Size(q[0]) == 12 + Align4(|q[0].val|)
  {
    hide NextTag, U32, NulFrom, Holds, At;
    StepAt(s, toks, q);
  }

  /** The property at `pos` holds `was`; once room is made, rewriting it after its first
      bytes `kept` gives the tree with `kept + val`. */
  ghost predicate Rewrote(b: Blob, toks: seq<Token>, t: Tree, r: seq<Token>, p: Path, i: nat, pos: int,
                          was: seq<byte>, kept: seq<byte>, val: seq<byte>, toks': seq<Token>, r': seq<Token>)
    requires Sound(b) && Ordered(b)
  {
    hide NextTag, U32, Align4, Clip, Regrafts, PropLen, SpliceValue, Rewrite;
    && pos >= 0 && NextTag(Struct(b), pos).tag == PROP && pos % 4 == 0 && |Struct(b)| % 4 == 0
    && PropLen(Struct(b), pos) == |was| && |kept| + |val| < WORD
    && (SpliceValue(b, pos, |kept| + |val|).err == 0 ==>
        && Has(t, p) && i < |Sub(t, p).props|
        && var n := Sub(t, p);
        Regrafts(b, toks, t, r, p, Rewrite(b, pos, |kept|, val), toks', r',
                 n.(props := n.props[i := PropVal(n.props[i].name, kept + val)])))
  }

  /** A property whose value is set or extended in place. */
  lemma RewriteTheorem(b: Blob, toks: seq<Token>, t: Tree, r: seq<Token>, p: Path, name: seq<byte>, keep: bool, val: seq<byte>)
    returns (toks': seq<Token>, r': seq<Token>)
    requires Denotes(b, toks, t) && Locates(b, toks, t, r, p) && |val| + (if keep then b.total else 0) < WORD
    requires PropIndex(Sub(t, p).props, name) < |Sub(t, p).props|
    ensures var i := PropIndex(Sub(t, p).props, name);
      var was := Sub(t, p).props[i].val;
      Rewrote(b, toks, t, r, p, i, GetProp(Struct(b), Strings(b), At(toks, r), name),
              was, if keep then was else [], val, toks', r')
  {
    hide Ser, Before, After, Strings, Struct, GetProp, At, Rest, Holds, NextTag, U32, BytesOf, TokenOk,
      Align4, PropLen, SpliceValue, Store, BE32, StringAt, Items, Strip, Len, Size, Regrafts, Reads, Rewrite;
    toks', r' := toks, r;
    DenotesParts(b, toks, t);
    var s, st := Struct(b), Strings(b);
    var n, z := Sub(t, p), After(t, p);
    var i := PropIndex(n.props, name);
    var q, lead := FoundProp(b, toks, t, r, p, name);
    var pos := At(toks, q);
    BlockSlices(b);
    PropValueAt(s, toks, q);
    var kept := if keep then n.props[i].val else [];
    assert q[0].val == n.props[i].val;
    var e := SpliceValue(b, pos, |kept| + |val|);
    if e.err == 0 {
      assert s[pos + 12..pos + 12] == [];
      var pad := RewriteBlocks(b, pos, kept, val);
      var b' := Rewrite(b, pos, |kept|, val);
      var k := Prop(q[0].nameoff, kept + val, pad);
      FlatSingle(k);
      ReplaceOne(s, toks, q, [k], Struct(b'));
      var v := PropVal(name, kept + val);
      PropShape(n, i, v, z);
      SingleItem(k, st);
      assert st == st + [];
      toks', r' := Conclude(b, toks, t, r, p, q, [k], q[1..], lead, n.(props := n.props[i := v]), b', []);
    }
  }

  lemma SingleItem(k: Token, st: seq<byte>)
    requires !k.Nop?
    ensures Strip(Items([k], st)) == [ItemOf(k, st)]
  {
    assert [k][1..] == [];
    FirstItem([k], st);
  }

  lemma DenotesParts(b: Blob, toks: seq<Token>, t: Tree)
    requires Denotes(b, toks, t)
    ensures Sound(b) && Ordered(b) && Holds(Struct(b), toks) && RwProbe(b) == 0
  {
  }

  /** A property that is not there: a new one right after the begin tag. */
  lemma AddedProp(b: Blob, toks: seq<Token>, t: Tree, r: seq<Token>, p: Path, name: seq<byte>, val: seq<byte>)
    returns (toks': seq<Token>, r': seq<Token>)
    requires Denotes(b, toks, t) && Locates(b, toks, t, r, p) && |val| < WORD && 0 !in name
    ensures Sound(b) && Ordered(b)
    ensures var n := Sub(t, p);
      var e := AddProperty(b, At(toks, r), name, |val|);
      && (e.err != 0 ==> e.err == -NOSPACE && Struct(e.blob) == Struct(b) && Strings(e.blob) == Strings(b) && e.blob == b.(buf := e.blob.buf))
      && (e.err == 0 ==>
          Regrafts(b, toks, t, r, p, Store(e.blob, e.prop + 12, val), toks', r', n.(props := [PropVal(name, val)] + n.props)))
  {
    hide Ser, Before, After, Strings, Struct, At, Rest, Holds, NextTag, U32, BytesOf, TokenOk,
      Align4, Store, BE32, StringAt, Items, Strip, Len, Size, Regrafts, Reads, AddProperty;
    toks', r' := toks, r;
    DenotesParts(b, toks, t);
    var s, st := Struct(b), Strings(b);
    var n, z := Sub(t, p), After(t, p);
    Located(b, toks, t, r, p);
    StepAt(s, toks, r);
    AddPropertyFails(b, At(toks, r), name, |val|);
    var e := AddProperty(b, At(toks, r), name, |val|);
    if e.err == 0 {
      var nameoff, pad, x := AddPropertyBlocks(b, At(toks, r), name, val);
      var b' := Store(e.blob, e.prop + 12, val);
      var k := Prop(nameoff, val, pad);
      FlatSingle(k);
      InsertAt(s, toks, r[1..], [k], Struct(b'));
      var v := PropVal(name, val);
      FirstPropShape(n, v, z);
      SingleItem(k, Strings(b'));
      SerHead(n, z);
      LeadInside(b, toks, t, r, p, r[1..], [IBegin(n.name)], Strip(Items(r[1..], st)));
      toks', r' := Conclude(b, toks, t, r, p, r[1..], [k], r[1..], [IBegin(n.name)], n.(props := [v] + n.props), b', x);
    }
  }

  /** The blob still denotes `t`, with the node where it was. */
  ghost predicate Unchanged(b: Blob, toks: seq<Token>, t: Tree, r: seq<Token>, p: Path, b': Blob) {
    Sound(b) && b' == b.(buf := b'.buf) && Denotes(b', toks, t) && Locates(b', toks, t, r, p)
  }

  lemma StillDenotes(b: Blob, toks: seq<Token>, t: Tree, r: seq<Token>, p: Path, b': Blob)
    requires Denotes(b, toks, t) && Locates(b, toks, t, r, p)
    requires Sound(b') && b' == b.(buf := b'.buf) && Struct(b') == Struct(b) && Strings(b') == Strings(b)
    ensures Unchanged(b, toks, t, r, p, b')
  {
  }

  /** fdt_setprop: on success exactly the property `name` of exactly the node at the
      given offset reads `val`; on failure nothing has changed. */
  lemma SetPropTheorem(b: Blob, toks: seq<Token>, t: Tree, r: seq<Token>, p: Path, name: seq<byte>, val: seq<byte>)
    returns (toks': seq<Token>, r': seq<Token>)
    requires Denotes(b, toks, t) && Locates(b, toks, t, r, p) && |val| < WORD && 0 !in name
    ensures var e := SetProp(b, At(toks, r), name, val);
      if e.err == 0 then Regrafts(b, toks, t, r, p, e.blob, toks', r', WithProp(Sub(t, p), name, val))
      else e.err == -NOSPACE && Unchanged(b, toks, t, r, p, e.blob)
  {
    hide Ser, Before, After, Strings, Struct, At, Holds, NextTag, U32, GetProp, PropLen, SpliceValue,
      Align4, Store, BE32, Items, Strip, Len, Regrafts, Reads, AddProperty, RwProbe, Unchanged;
    DenotesParts(b, toks, t);
    var n := Sub(t, p);
    var i := PropIndex(n.props, name);
    var pos := GetProp(Struct(b), Strings(b), At(toks, r), name);
    if i < |n.props| {
      toks', r' := RewriteTheorem(b, toks, t, r, p, name, false, val);
      assert [] + val == val;
      var e := SpliceValue(b, pos, |val|);
      SpliceValueFails(b, pos, |val|);
      if e.err != 0 {
        StillDenotes(b, toks, t, r, p, b);
      }
    } else {
      var q := FindInNode(b, toks, t, r, p, name);
      toks', r' := AddedProp(b, toks, t, r, p, name, val);
      var e := AddProperty(b, At(toks, r), name, |val|);
      if e.err != 0 {
        StillDenotes(b, toks, t, r, p, e.blob);
      }
    }
  }

  lemma SpliceValueFails(b: Blob, pos: nat, len: nat)
    requires Sound(b) && Ordered(b) && NextTag(Struct(b), pos).tag == PROP && pos % 4 == 0
    ensures var e := SpliceValue(b, pos, len); e.err != 0 ==> e == Edited(-NOSPACE, b)
  {
    hide NextTag, U32, Align4, SpliceStruct, PropLen;
    BlockSlices(b);
    SpliceFails(b, pos + 12, Align4(PropLen(Struct(b), pos)), Align4(len));
  }

  /** fdt_appendprop: the old value followed by the new one, or a new property. */
  lemma AppendPropTheorem(b: Blob, toks: seq<Token>, t: Tree, r: seq<Token>, p: Path, name: seq<byte>, val: seq<byte>)
    returns (toks': seq<Token>, r': seq<Token>)
    requires Denotes(b, toks, t) && Locates(b, toks, t, r, p) && |val| + b.total < WORD && 0 !in name
    ensures var e := AppendProp(b, At(toks, r), name, val);
      if e.err == 0 then Regrafts(b, toks, t, r, p, e.blob, toks', r', WithAppended(Sub(t, p), name, val))
      else e.err == -NOSPACE && Unchanged(b, toks, t, r, p, e.blob)
  {
    hide Ser, Before, After, Strings, Struct, At, Holds, NextTag, U32, GetProp, PropLen, SpliceValue,
      Align4, Store, BE32, Items, Strip, Len, Regrafts, Reads, AddProperty, Unchanged;
    DenotesParts(b, toks, t);
    var n := Sub(t, p);
    var i := PropIndex(n.props, name);
    var pos := GetProp(Struct(b), Strings(b), At(toks, r), name);
    if i < |n.props| {
      toks', r' := RewriteTheorem(b, toks, t, r, p, name, true, val);
      var len := |n.props[i].val| + |val|;
      SpliceValueFails(b, pos, len);
      if SpliceValue(b, pos, len).err != 0 {
        StillDenotes(b, toks, t, r, p, b);
      }
    } else {
      var q := FindInNode(b, toks, t, r, p, name);
      toks', r' := AddedProp(b, toks, t, r, p, name, val);
      var e := AddProperty(b, At(toks, r), name, |val|);
      if e.err != 0 {
        StillDenotes(b, toks, t, r, p, e.blob);
      }
    }
  }

  /** fdt_delprop: exactly the property `name` is gone. */
  lemma DelPropTheorem(b: Blob, toks: seq<Token>, t: Tree, r: seq<Token>, p: Path, name: seq<byte>)
    returns (toks': seq<Token>, r': seq<Token>)
    requires Denotes(b, toks, t) && Locates(b, toks, t, r, p)
    ensures var e := DelProp(b, At(toks, r), name);
      if PropIndex(Sub(t, p).props, name) < |Sub(t, p).props|
      then e.err == 0 && Regrafts(b, toks, t, r, p, e.blob, toks', r', WithoutProp(Sub(t, p), name))
      else e == Edited(-NOTFOUND, b)
  {
    hide Ser, Before, After, Strings, Struct, At, Holds, NextTag, U32, GetProp, PropLen, SpliceStruct, Rest,
      Align4, BE32, Items, Strip, Len, Regrafts, Reads, Size, BytesOf;
    toks', r' := toks, r;
    DenotesParts(b, toks, t);
    BlockSlices(b);
    var s, st := Struct(b), Strings(b);
    var n, z := Sub(t, p), After(t, p);
    var i := PropIndex(n.props, name);
    if i < |n.props| {
      var q, lead := FoundProp(b, toks, t, r, p, name);
      PropValueAt(s, toks, q);
      var pos := At(toks, q);
      var e := SpliceStruct(b, pos, Size(q[0]), 0);
      SpliceFails(b, pos, Size(q[0]), 0);
      var hole := SpliceBlocks(b, pos, Size(q[0]), 0);
      assert hole == Flat([]) == [];
      ReplaceOne(s, toks, q, [], Struct(e.blob));
      PropShape(n, i, n.props[i], z);
      NoItems(st);
      assert [] + Strip(Items(q[1..], st)) == Strip(Items(q[1..], st));
      assert st == st + [];
      toks', r' := Conclude(b, toks, t, r, p, q, [], q[1..], lead, WithoutProp(n, name), e.blob, []);
    } else {
      var q := FindInNode(b, toks, t, r, p, name);
    }
  }

  lemma NoItems(st: seq<byte>)
    ensures Strip(Items([], st)) == []
  {
  }

  // ---------------------------------------------------------------- nodes

  /** The child of a located node that answers to `want`, as its readers find it. */
  lemma FindKid(b: Blob, toks: seq<Token>, t: Tree, r: seq<Token>, p: Path, want: seq<byte>) returns (q: seq<Token>)
    requires Reads(b, toks, t) && Locates(b, toks, t, r, p)
    ensures var n := Sub(t, p);
      var i := KidIndex(n.kids, want);
      var pos := SubnodeOffset(Struct(b), At(toks, r), want);
      if i < |n.kids| then
        && Suffix(q, toks) && q != [] && q[0].BeginNode? && |q| < |r|
        && pos == At(toks, q) >= 0
        && Strip(Items(q, Strings(b))) == SerKids(n.kids[i..]) + ([IEnd] + After(t, p))
      else pos == -NOTFOUND
  {
    hide Ser, Before, After, Strings, Struct, RwProbe, NextTag, U32, NulFrom, At, Rest, NameEq, NodeName;
    var s, st := Struct(b), Strings(b);
    var n, z := Sub(t, p), After(t, p);
    Located(b, toks, t, r, p);
    StepAt(s, toks, r);
    var x := Items(r[1..], st);
    q := ScanSub(s, st, toks, r[1..], 0, want);
    StripFindSub(x, 0, want);
    FindSubBody(n, z, want);
    assert SubnodeOffset(s, At(toks, r), want) == SubnodeLoop(s, NextNode(s, At(toks, r), 0), want);
  }

  /** The end of a located node, as its readers find it. */
  lemma FindEnd(b: Blob, toks: seq<Token>, t: Tree, r: seq<Token>, p: Path) returns (q: seq<Token>)
    requires Reads(b, toks, t) && Locates(b, toks, t, r, p)
    ensures Suffix(q, toks) && Suffix(q, r) && |q| < |r|
    ensures NodeEndOffset(Struct(b), At(toks, r)) == At(toks, q)
    ensures Strip(Items(q, Strings(b))) == After(t, p)
  {
    hide Ser, Before, After, Strings, Struct, RwProbe, NextTag, U32, NulFrom, At;
    var s, st := Struct(b), Strings(b);
    Located(b, toks, t, r, p);
    StepAt(s, toks, r);
    q := ScanEnd(s, st, toks, r[1..], 0);
    StripClose(Items(r[1..], st), 0);
    CloseBody(Sub(t, p), After(t, p), 0);
    assert NodeEndOffset(s, At(toks, r)) == EndLoop(s, NextNode(s, At(toks, r), 0));
  }

  /** fdt_del_node: exactly the node at the given offset is gone. */
  lemma DelNodeTheorem(b: Blob, toks: seq<Token>, t: Tree, r: seq<Token>, p: Path)
    returns (toks': seq<Token>)
    requires Denotes(b, toks, t) && Locates(b, toks, t, r, p) && p != []
    ensures var e := DelNode(b, At(toks, r));
      e.err == 0 && Denotes(e.blob, toks', Prune(t, p)) && Lead(toks, r) <= toks'
  {
    hide Ser, Before, After, Strings, Struct, At, Holds, NextTag, U32, NodeEndOffset, SpliceStruct,
      Align4, BE32, Items, Strip, Len, Size, BytesOf;
    DenotesParts(b, toks, t);
    BlockSlices(b);
    var s, st := Struct(b), Strings(b);
    var q := FindEnd(b, toks, t, r, p);
    var pos, end := At(toks, r), At(toks, q);
    EndInside(s, toks, r, q);
    SpliceFails(b, pos, end - pos, 0);
    var hole := SpliceBlocks(b, pos, end - pos, 0);
    var b' := DelNode(b, pos).blob;
    assert hole == Flat([]) == [];
    RemoveTo(s, toks, r, q, [], Struct(b'));
    toks' := Lead(toks, r) + q;
    assert Lead(toks, r) + [] + q == toks';
    ItemsConcat(Lead(toks, r), q, st);
    StripConcat(Items(Lead(toks, r), st), Items(q, st));
    SerPrune(t, p);
    ProbeKept(b, b', toks');
  }

  lemma EndInside(s: seq<byte>, toks: seq<Token>, r: seq<Token>, q: seq<Token>)
    requires Holds(s, toks) && Suffix(r, toks) && Suffix(q, toks) && Suffix(q, r)
    ensures At(toks, r) <= At(toks, q) <= |s| && (At(toks, q) - At(toks, r)) % 4 == 0
  {
    hide NextTag;
    LenSuffix(r, q);
    ReadEnd(s, toks);
  }

  /** The position that skipping a located node's properties reaches. */
  lemma {:induction false} ScanSkip(s: seq<byte>, st: seq<byte>, toks: seq<Token>, rest: seq<Token>) returns (q: seq<Token>)
    requires Holds(s, toks) && Suffix(rest, toks)
    ensures Suffix(q, toks) && |q| <= |rest| && SkipPropsFrom(s, At(toks, rest)) == At(toks, q)
    ensures AfterProps(Items(rest, st)) == Items(q, st)
  {
    hide NextTag, U32, NulFrom, Holds, At, StringAt, Size;
    if rest == [] {
      EndAt(s, toks);
      q := [];
    } else {
      StepAt(s, toks, rest);
      ItemsTail(rest, st);
      if rest[0].Prop? || rest[0].Nop? {
        q := ScanSkip(s, st, toks, rest[1..]);
      } else {
        q := rest;
      }
    }
  }

  /** The block after an empty node has been put in at `pos`. */
  lemma AddNodeBlocks(b: Blob, pos: nat, name: seq<byte>) returns (pad: seq<byte>)
    requires Sound(b) && Ordered(b) && 0 !in name && pos <= b.sizeStruct
    ensures var e := InsertNode(b, pos, name);
      var s := Struct(b);
      && pos <= |s|
      && (e.err < 0 ==> e == Edited(-NOSPACE, b))
      && (e.err >= 0 ==>
        && e.err == pos
        && TokenOk(BeginNode(name, pad))
        && Struct(e.blob) == s[..pos] + (BytesOf(BeginNode(name, pad)) + BytesOf(EndNode)) + s[pos..]
        && Strings(e.blob) == Strings(b) && e.blob.magic == b.magic)
  {
    hide BE32, Align4, Struct, Strings, Zeros, BytesOf, SpliceStruct;
    pad := [];
    var nl := Align4(|name| + 1);
    var s := Struct(b);
    BlockSlices(b);
    var e := SpliceStruct(b, pos, 0, 8 + nl);
    SpliceFails(b, pos, 0, 8 + nl);
    if e.err != 0 {
      return;
    }
    var hole := SpliceBlocks(b, pos, 0, 8 + nl);
    pad := FillNode(hole, name);
    var pre, post := s[..pos], s[pos..];
    StoreInHole(e.blob, pre, hole, post, 0, BE32(BEGIN_NODE));
    var b1, h1 := Store(e.blob, pos, BE32(BEGIN_NODE)), Put(hole, 0, BE32(BEGIN_NODE));
    StoreInHole(b1, pre, h1, post, 4, Zeros(nl));
    var b2, h2 := Store(b1, pos + 4, Zeros(nl)), Put(h1, 4, Zeros(nl));
    StoreInHole(b2, pre, h2, post, 4, name);
    var b3, h3 := Store(b2, pos + 4, name), Put(h2, 4, name);
    StoreInHole(b3, pre, h3, post, 4 + nl, BE32(END_NODE));
  }

  /** fdt_add_subnode: an empty first child, unless a child already answers to the name. */
  lemma AddSubnodeTheorem(b: Blob, toks: seq<Token>, t: Tree, r: seq<Token>, p: Path, name: seq<byte>)
    returns (toks': seq<Token>, r': seq<Token>, k: seq<Token>)
    requires Denotes(b, toks, t) && Locates(b, toks, t, r, p) && 0 !in name
    ensures var e := AddSubnode(b, At(toks, r), name);
      var n := Sub(t, p);
      if KidIndex(n.kids, name) < |n.kids| then e == Edited(-EXISTS, b)
      else if e.err >= 0 then
        && Regrafts(b, toks, t, r, p, e.blob, toks', r', WithKid(n, name))
        && Suffix(k, toks') && e.err == At(toks', k)
        && Locates(e.blob, toks', Graft(t, p, WithKid(n, name)), k, p + [0])
      else e == Edited(-NOSPACE, b)
  {
    hide Ser, Before, After, Strings, Struct, At, Holds, NextTag, U32, SubnodeOffset, SpliceStruct, Rest, SkipPropsFrom,
      Items, Strip, Len, Regrafts, Reads, Size, BytesOf, TokenOk, InsertNode;
    toks', r', k := toks, r, r;
    DenotesParts(b, toks, t);
    BlockSlices(b);
    var s, st := Struct(b), Strings(b);
    var n, z := Sub(t, p), After(t, p);
    var f := FindKid(b, toks, t, r, p, name);
    if KidIndex(n.kids, name) == |n.kids| {
      Located(b, toks, t, r, p);
      StepAt(s, toks, r);
      var q := ScanSkip(s, st, toks, r[1..]);
      StripAfterProps(Items(r[1..], st));
      FindPropBody(n, z, name);
      RestIs(n, z);
      SkipPropsSafe(s, At(toks, r), name);
      var pad := AddNodeBlocks(b, At(toks, q), name);
      var e := AddSubnode(b, At(toks, r), name);
      if e.err >= 0 {
        var b' := e.blob;
        var m := [BeginNode(name, pad), EndNode];
        FlatPair(m[0], m[1]);
        InsertAt(s, toks, q, m, Struct(b'));
        FirstKidShape(n, name, z);
        PairItems(name, pad, st);
        var lead := [IBegin(n.name)] + SerProps(n.props);
        LeadInside(b, toks, t, r, p, q, lead, Rest(n, z));
        assert st == st + [];
        toks', r' := Conclude(b, toks, t, r, p, q, m, q, lead, WithKid(n, name), b', []);
        k := m + q;
        NewKid(b', toks', toks, q, m, Graft(t, p, WithKid(n, name)), t, p, lead, name, n);
      }
    }
  }

  lemma FlatPair(x: Token, y: Token)
    requires TokenOk(x) && TokenOk(y)
    ensures AllOk([x, y]) && Flat([x, y]) == BytesOf(x) + BytesOf(y)
  {
    FlatOne(y);
    assert [x, y][1..] == [y];
  }

  lemma PairItems(name: seq<byte>, pad: seq<byte>, st: seq<byte>)
    ensures Strip(Items([BeginNode(name, pad), EndNode], st)) == [IBegin(name), IEnd]
  {
    var m := [BeginNode(name, pad), EndNode];
    assert m[1..] == [EndNode] && m[1..][1..] == [];
    assert Items(m[1..][1..], st) == [];
    assert Items(m[1..], st) == [IEnd];
    assert Items(m, st) == [IBegin(name), IEnd];
    assert [IBegin(name), IEnd][1..] == [IEnd] && [IEnd][1..] == [];
    assert Strip([]) == [];
    assert Strip([IEnd]) == [IEnd];
  }

  /** The new child is where fdt_add_subnode says. */
  lemma NewKid(b': Blob, toks': seq<Token>, toks: seq<Token>, q: seq<Token>, m: seq<Token>, t': Tree, t: Tree, p: Path,
               lead: seq<Item>, name: seq<byte>, n: Tree)
    requires Sound(b') && Suffix(q, toks) && m != [] && m[0].BeginNode?
    requires toks' == Lead(toks, q) + m + q
    requires Has(t, p) && n == Sub(t, p) && t' == Graft(t, p, WithKid(n, name))
    requires lead == [IBegin(n.name)] + SerProps(n.props)
    requires Strip(Items(Lead(toks, q), Strings(b'))) == Before(t, p) + lead
    ensures Locates(b', toks', t', m + q, p + [0]) && At(toks', m + q) == At(toks, q)
  {
    hide Strings, Strip, Items, Ser, SerProps;
    var k := m + q;
    assert toks' == Lead(toks, q) + k;
    assert toks'[|toks'| - |k|..] == k;
    assert Lead(toks', k) == Lead(toks, q);
    LenSuffix(toks', k);
    LenSuffix(toks, q);
    GraftKeepsBefore(t, p, WithKid(n, name));
    BeforeFirstKid(t', p);
    assert k[0] == m[0];
  }

  lemma {:induction false} BeforeFirstKid(t: Tree, p: Path)
    requires Has(t, p) && Sub(t, p).kids != []
    ensures Has(t, p + [0]) && Sub(t, p + [0]) == Sub(t, p).kids[0]
    ensures Before(t, p + [0]) == Before(t, p) + ([IBegin(Sub(t, p).name)] + SerProps(Sub(t, p).props))
    decreases |p|
  {
    var q := p + [0];
    if p == [] {
      assert q[1..] == [];
      assert t.kids[..0] == [];
    } else {
      assert q[1..] == p[1..] + [0];
      BeforeFirstKid(t.kids[p[0]], p[1..]);
    }
  }

  // ---------------------------------------------------------------- nop-out editing

  function Nops(n: nat): (m: seq<Token>)
    ensures |m| == n
  {
    if n == 0 then [] else [Nop] + Nops(n - 1)
  }

  lemma {:induction false} NopsFacts(n: nat, st: seq<byte>)
    ensures AllOk(Nops(n)) && Len(Nops(n)) == 4 * n && Strip(Items(Nops(n), st)) == []
  {
    if n > 0 {
      NopsFacts(n - 1, st);
      assert Nops(n)[1..] == Nops(n - 1);
    }
  }

  /** fdt_nop_region_ writes whole no-op tokens over the region and its padding. */
  lemma {:induction false} NopRegionBytes(buf: seq<byte>, at: nat, len: nat, n: nat)
    requires Align4(len) == 4 * n && at + 4 * n <= |buf|
    ensures AllOk(Nops(n)) && NopRegion(buf, at, len) == buf[..at] + Flat(Nops(n)) + buf[at + 4 * n..]
    decreases n
  {
    hide BE32;
    NopsFacts(n, []);
    if n > 0 {
      var w := BE32(NOP);
      var one := Put(buf, at, w);
      assert BytesOf(Nop) == w;
      if len >= 4 {
        NopRegionBytes(one, at + 4, len - 4, n - 1);
      } else {
        NopsFacts(0, []);
      }
      assert NopRegion(buf, at, len) == one[..at + 4] + Flat(Nops(n - 1)) + one[at + 4 * n..] by {
        if len < 4 {
          assert Flat(Nops(0)) == [];
          assert one == one[..at + 4] + one[at + 4..];
        }
      }
      NopsFacts(n - 1, []);
      assert one[..at + 4] == buf[..at] + w && one[at + 4 * n..] == buf[at + 4 * n..];
      assert Nops(n)[1..] == Nops(n - 1) && Nops(n)[0] == Nop;
      assert Flat(Nops(n)) == w + Flat(Nops(n - 1));
    } else {
      assert Flat(Nops(0)) == [];
    }
  }

  /** The blob with the words from `pos` to `end` of its structure block nopped out. */
  lemma NoppedBlocks(b: Blob, pos: nat, len: nat, n: nat, b': Blob)
    requires Sound(b) && Ordered(b) && Align4(len) == 4 * n && pos + 4 * n <= b.sizeStruct
    requires b' == b.(buf := NopRegion(b.buf, b.offStruct + pos, len))
    ensures AllOk(Nops(n)) && |Struct(b)| == b.sizeStruct
    ensures Sound(b') && Strings(b') == Strings(b)
    ensures Struct(b') == Struct(b)[..pos] + Flat(Nops(n)) + Struct(b)[pos + 4 * n..]
    ensures b'.buf[..b.offStruct + pos] == b.buf[..b.offStruct + pos]
    ensures b'.buf[b.offStruct + pos + 4 * n..] == b.buf[b.offStruct + pos + 4 * n..]
  {
    hide NopRegion, Flat, Align4, Struct, Strings;
    OrderedFacts(b);
    BlockSlices(b);
    NopRegionBytes(b.buf, b.offStruct + pos, len, n);
    NopsFacts(n, []);
    LenFlat(Nops(n));
    BlockSlices(b');
    var o, e, m := b.offStruct, b.offStruct + b.sizeStruct, Flat(Nops(n));
    NopSlices(b.buf, o, o + pos, m, e, b.offStrings, DataEnd(b));
  }

  lemma NopSlices(buf: seq<byte>, o: nat, at: nat, m: seq<byte>, e: nat, lo: nat, hi: nat)
    requires o <= at && at + |m| <= e <= lo <= hi <= |buf|
    ensures var buf' := buf[..at] + m + buf[at + |m|..];
      && |buf'| == |buf|
      && buf'[o..e] == buf[o..e][..at - o] + m + buf[o..e][at - o + |m|..]
      && buf'[lo..hi] == buf[lo..hi]
      && buf'[..at] == buf[..at] && buf'[at + |m|..] == buf[at + |m|..]
  {
  }

  /** Nothing but bytes `lo` to `hi` of the structure block differs. */
  ghost predicate OnlyRegion(b: Blob, b': Blob, lo: nat, hi: nat) {
    var (i, j) := (b.offStruct + lo, b.offStruct + hi);
    && i <= j <= |b.buf| == |b'.buf|
    && b' == b.(buf := b.buf[..i] + b'.buf[i..j] + b.buf[j..])
  }

  /** The words of the property at `pos` are the only ones that differ. */
  ghost predicate OnlyProp(b: Blob, b': Blob, pos: int)
    requires Sound(b)
  {
    hide NextTag, U32, Align4, Clip;
    && pos >= 0 && NextTag(Struct(b), pos).tag == PROP && pos % 4 == 0 && |Struct(b)| % 4 == 0
    && OnlyRegion(b, b', pos, pos + 12 + Align4(PropLen(Struct(b), pos)))
  }

  /** fdt_nop_property: the tree is the one fdt_delprop yields, and no byte outside the
      property's own words has changed. */
  lemma NopPropTheorem(b: Blob, toks: seq<Token>, t: Tree, r: seq<Token>, p: Path, name: seq<byte>)
    returns (toks': seq<Token>, r': seq<Token>)
    requires Denotes(b, toks, t) && Locates(b, toks, t, r, p)
    ensures Sound(b) && Inside(b)
    ensures var e := NopProp(b, At(toks, r), name);
      if PropIndex(Sub(t, p).props, name) < |Sub(t, p).props| then
        && e.err == 0 && Regrafts(b, toks, t, r, p, e.blob, toks', r', WithoutProp(Sub(t, p), name))
        && OnlyProp(b, e.blob, GetProp(Struct(b), Strings(b), At(toks, r), name))
      else e == Edited(-NOTFOUND, b)
  {
    hide Ser, Before, After, Strings, Struct, At, Holds, NextTag, U32, GetProp, PropLen, Rest, NopRegion, Flat,
      BE32, Items, Strip, Len, Regrafts, Reads, BytesOf, NulFrom, PropIndex, Lead, PropItem;
    toks', r' := toks, r;
    DenotesParts(b, toks, t);
    BlockSlices(b);
    var s, st := Struct(b), Strings(b);
    var n, z := Sub(t, p), After(t, p);
    var i := PropIndex(n.props, name);
    if i < |n.props| {
      var q, lead := FoundProp(b, toks, t, r, p, name);
      PropValueAt(s, toks, q);
      var pos, len := At(toks, q), PropLen(s, At(toks, q));
      AlignShift(12, len);
      var words := (12 + Align4(len)) / 4;
      var b' := NopProp(b, At(toks, r), name).blob;
      NoppedBlocks(b, pos, 12 + len, words, b');
      NopsFacts(words, st);
      ReplaceOne(s, toks, q, Nops(words), Struct(b'));
      PropShape(n, i, n.props[i], z);
      assert [] + Strip(Items(q[1..], st)) == Strip(Items(q[1..], st));
      assert st == st + [];
      toks', r' := Conclude(b, toks, t, r, p, q, Nops(words), q[1..], lead, WithoutProp(n, name), b', []);
      Outside(b.buf, b'.buf, b.offStruct + pos, b.offStruct + pos + 4 * words);
    } else {
      var q := FindInNode(b, toks, t, r, p, name);
    }
  }

  lemma Outside(x: seq<byte>, y: seq<byte>, lo: nat, hi: nat)
    requires |x| == |y| && lo <= hi <= |x| && y[..lo] == x[..lo] && y[hi..] == x[hi..]
    ensures y == x[..lo] + y[lo..hi] + x[hi..]
  {
  }

  /** fdt_nop_node: the tree is the one fdt_del_node yields, and no byte outside the
      node's own words has changed. */
  lemma NopNodeTheorem(b: Blob, toks: seq<Token>, t: Tree, r: seq<Token>, p: Path)
    returns (toks': seq<Token>)
    requires Denotes(b, toks, t) && Locates(b, toks, t, r, p) && p != []
    ensures Sound(b) && Inside(b)
    ensures var e := NopNode(b, At(toks, r));
      var pos, end := At(toks, r), NodeEndOffset(Struct(b), At(toks, r));
      && e.err == 0 && Denotes(e.blob, toks', Prune(t, p)) && Lead(toks, r) <= toks'
      && 0 <= pos <= end && OnlyRegion(b, e.blob, pos, end)
  {
    hide Ser, Before, After, Strings, Struct, At, Holds, NextTag, U32, NodeEndOffset, NopRegion, Flat,
      Align4, BE32, Items, Strip, Len, Size, BytesOf;
    DenotesParts(b, toks, t);
    BlockSlices(b);
    var s, st := Struct(b), Strings(b);
    var q := FindEnd(b, toks, t, r, p);
    var pos, end := At(toks, r), At(toks, q);
    EndInside(s, toks, r, q);
    AlignWhole(end - pos);
    var words := (end - pos) / 4;
    var b' := NopNode(b, pos).blob;
    NoppedBlocks(b, pos, end - pos, words, b');
    NopsFacts(words, st);
    var m := Nops(words);
    RemoveTo(s, toks, r, q, m, Struct(b'));
    toks' := Lead(toks, r) + m + q;
    ItemsConcat(Lead(toks, r) + m, q, st);
    ItemsConcat(Lead(toks, r), m, st);
    StripConcat(Items(Lead(toks, r), st) + Items(m, st), Items(q, st));
    StripConcat(Items(Lead(toks, r), st), Items(m, st));
    SerPrune(t, p);
    assert (Before(t, p) + []) + After(t, p) == Before(t, p) + After(t, p);
    ProbeKept(b, b', toks');
    Outside(b.buf, b'.buf, b.offStruct + pos, b.offStruct + end);
  }
}
