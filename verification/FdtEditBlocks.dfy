/** What each editor does to the structure and strings blocks, byte for byte. */
module FdtEditBlocks {
  import opened Wrappers
  import opened Bytes
  import opened FdtFormat
  import opened FdtTree
  import opened FdtRead
  import opened FdtEdit

  lemma BlockSlices(b: Blob)
    requires Sound(b) && Ordered(b)
    ensures Struct(b) == b.buf[b.offStruct..b.offStruct + b.sizeStruct] && |Struct(b)| == b.sizeStruct
    ensures Strings(b) == b.buf[b.offStrings..DataEnd(b)] && |Strings(b)| == b.sizeStrings
  {
  }

  lemma OrderedFacts(b: Blob)
    requires Sound(b) && Ordered(b)
    ensures HEADER <= b.offRsv && b.offRsv + RSV_ENTRY <= b.offStruct
    ensures b.offStruct + b.sizeStruct <= b.offStrings <= DataEnd(b) <= b.total <= |b.buf|
  {
  }

  lemma MoveSlices(buf: seq<byte>, p: nat, oldlen: nat, newlen: nat, end: nat, lo: nat, hi: nat)
    requires p + oldlen <= end <= |buf| && end - oldlen + newlen <= |buf|
    requires lo <= hi
    ensures hi <= p ==> Moved(buf, p + newlen, p + oldlen, end - p - oldlen)[lo..hi] == buf[lo..hi]
    ensures p + newlen <= lo && hi <= end - oldlen + newlen ==>
      Moved(buf, p + newlen, p + oldlen, end - p - oldlen)[lo..hi] == buf[lo - newlen + oldlen..hi - newlen + oldlen]
  {
    hide Put;
    var x := buf[p + oldlen..end];
    if hi <= p {
      PutElsewhere(buf, p + newlen, x, lo, hi);
    }
    if p + newlen <= lo && hi <= end - oldlen + newlen {
      var m := Put(buf, p + newlen, x);
      PutHere(buf, p + newlen, x);
      SliceOfSlice(m, p + newlen, p + newlen + |x|, lo - p - newlen, hi - p - newlen);
      SliceOfSlice(buf, p + oldlen, end, lo - p - newlen, hi - p - newlen);
    }
  }

  lemma SpliceFields(b: Blob, q: nat, oldlen: nat, newlen: nat)
    requires Sound(b) && Ordered(b) && q + oldlen <= b.sizeStruct && oldlen % 4 == 0 && newlen % 4 == 0
    requires SpliceStruct(b, q, oldlen, newlen).err == 0
    ensures var b' := SpliceStruct(b, q, oldlen, newlen).blob;
      && b' == b.(buf := b'.buf, sizeStruct := b.sizeStruct - oldlen + newlen, offStrings := b.offStrings - oldlen + newlen)
      && DataEnd(b) - oldlen + newlen <= b.total <= |b.buf|
      && b'.buf == Moved(b.buf, b.offStruct + q + newlen, b.offStruct + q + oldlen, DataEnd(b) - b.offStruct - q - oldlen)
  {
  }

  /** A successful splice keeps the bytes before it and after it, and the strings. */
  lemma SpliceBlocks(b: Blob, q: nat, oldlen: nat, newlen: nat) returns (hole: seq<byte>)
    requires Sound(b) && Ordered(b) && q + oldlen <= b.sizeStruct && oldlen % 4 == 0 && newlen % 4 == 0
    requires SpliceStruct(b, q, oldlen, newlen).err == 0
    ensures |hole| == newlen
    ensures var b' := SpliceStruct(b, q, oldlen, newlen).blob;
      && hole == b'.buf[b.offStruct + q..b.offStruct + q + newlen]
      && Struct(b') == Struct(b)[..q] + hole + Struct(b)[q + oldlen..]
      && Strings(b') == Strings(b)
      && b' == b.(buf := b'.buf, sizeStruct := b'.sizeStruct, offStrings := b'.offStrings)
  {
    hide Struct, Strings, Moved, RoProbe, SpliceStruct, Put, Clip, Sound, Ordered;
    OrderedFacts(b);
    var b' := SpliceStruct(b, q, oldlen, newlen).blob;
    SpliceFields(b, q, oldlen, newlen);
    BlockSlices(b);
    BlockSlices(b');
    var p := b.offStruct + q;
    hole := b'.buf[p..p + newlen];
    assert Struct(b)[..q] == b.buf[b.offStruct..p] by {
      SliceOfSlice(b.buf, b.offStruct, b.offStruct + b.sizeStruct, 0, q);
    }
    assert Struct(b)[q + oldlen..] == b.buf[p + oldlen..b.offStruct + b.sizeStruct] by {
      SliceOfSlice(b.buf, b.offStruct, b.offStruct + b.sizeStruct, q + oldlen, b.sizeStruct);
    }
    MovedParts(b.buf, b.offStruct, q, b.sizeStruct, oldlen, newlen, b.offStrings, DataEnd(b));
  }

  /** Where a splice makes room, the bytes that were there stay. */
  lemma HoleKeeps(b: Blob, q: nat, oldlen: nat, newlen: nat)
    requires Sound(b) && Ordered(b) && q + oldlen <= b.sizeStruct && oldlen % 4 == 0 && newlen % 4 == 0
    requires SpliceStruct(b, q, oldlen, newlen).err == 0 && oldlen <= newlen
    ensures var b' := SpliceStruct(b, q, oldlen, newlen).blob;
      var p := b.offStruct + q;
      p + newlen <= |b'.buf| && b'.buf[p..p + newlen][..oldlen] == Struct(b)[q..q + oldlen]
  {
    hide Moved, RoProbe, SpliceStruct, Struct;
    SpliceFields(b, q, oldlen, newlen);
    BlockSlices(b);
    var p := b.offStruct + q;
    SliceOfSlice(b.buf, b.offStruct, b.offStruct + b.sizeStruct, q, q + oldlen);
    MoveSlices(b.buf, p, oldlen, newlen, DataEnd(b), p, p + oldlen);
    MovedKeeps(b.buf, p, oldlen, newlen, DataEnd(b));
  }

  lemma MovedKeeps(buf: seq<byte>, p: nat, oldlen: nat, newlen: nat, end: nat)
    requires p + oldlen <= end <= |buf| && end - oldlen + newlen <= |buf| && oldlen <= newlen
    ensures Moved(buf, p + newlen, p + oldlen, end - p - oldlen)[p..p + newlen][..oldlen] == buf[p..p + oldlen]
  {
    hide Put;
    MoveSlices(buf, p, oldlen, newlen, end, p, p + oldlen);
    var m := Moved(buf, p + newlen, p + oldlen, end - p - oldlen);
    assert m == Put(buf, p + newlen, buf[p + oldlen..end]);
    PutElsewhere(buf, p + newlen, buf[p + oldlen..end], p, p + oldlen);
    SliceOfSlice(m, p, p + newlen, 0, oldlen);
  }

  lemma MovedParts(buf: seq<byte>, off: nat, q: nat, size: nat, oldlen: nat, newlen: nat, strings: nat, end: nat)
    requires q + oldlen <= size && off + size <= strings <= end <= |buf| && end - oldlen + newlen <= |buf|
    ensures var m := Moved(buf, off + q + newlen, off + q + oldlen, end - off - q - oldlen);
      && m[off..off + size - oldlen + newlen] == buf[off..off + q] + m[off + q..off + q + newlen] + buf[off + q + oldlen..off + size]
      && m[strings - oldlen + newlen..end - oldlen + newlen] == buf[strings..end]
  {
    hide Moved;
    var p := off + q;
    var m := Moved(buf, p + newlen, p + oldlen, end - p - oldlen);
    var last := off + size - oldlen + newlen;
    Cut(m, off, p, p + newlen, last);
    MoveSlices(buf, p, oldlen, newlen, end, off, p);
    assert m[off..p] == buf[off..off + q];
    MoveSlices(buf, p, oldlen, newlen, end, p + newlen, last);
    assert m[p + newlen..last] == buf[off + q + oldlen..off + size];
    MoveSlices(buf, p, oldlen, newlen, end, strings - oldlen + newlen, end - oldlen + newlen);
  }

  lemma SliceOfSlice(s: seq<byte>, lo: nat, hi: nat, i: nat, j: nat)
    requires lo <= hi <= |s| && i <= j <= hi - lo
    ensures s[lo..hi][i..j] == s[lo + i..lo + j]
  {
    var a, c := s[lo..hi][i..j], s[lo + i..lo + j];
    assert forall k :: 0 <= k < |a| ==> a[k] == c[k];
  }

  lemma Cut(s: seq<byte>, i: nat, j: nat, k: nat, l: nat)
    requires i <= j <= k <= l <= |s|
    ensures s[i..l] == s[i..j] + s[j..k] + s[k..l]
  {
  }

  lemma StoreBlocks(b: Blob, q: nat, x: seq<byte>)
    requires Sound(b) && Ordered(b) && q + |x| <= b.sizeStruct
    ensures Struct(Store(b, q, x)) == Put(Struct(b), q, x)
    ensures Strings(Store(b, q, x)) == Strings(b)
  {
    var b' := Store(b, q, x);
    BlockSlices(b);
    BlockSlices(b');
    PutInside(b.buf, b.offStruct + q, x, b.offStruct, b.offStruct + b.sizeStruct);
    PutElsewhere(b.buf, b.offStruct + q, x, b.offStrings, DataEnd(b));
  }

  /** Storing into the hole of a block. */
  lemma HolePut(pre: seq<byte>, hole: seq<byte>, post: seq<byte>, k: nat, x: seq<byte>)
    requires k + |x| <= |hole|
    ensures Put(pre + hole + post, |pre| + k, x) == pre + Put(hole, k, x) + post
  {
  }

  /** A store into the hole left by a splice. */
  lemma StoreInHole(b: Blob, pre: seq<byte>, hole: seq<byte>, post: seq<byte>, k: nat, x: seq<byte>)
    requires Sound(b) && Ordered(b) && Struct(b) == pre + hole + post && k + |x| <= |hole|
    ensures |pre| + k + |x| <= b.sizeStruct
    ensures var b' := Store(b, |pre| + k, x);
      Struct(b') == pre + Put(hole, k, x) + post && Strings(b') == Strings(b)
  {
    BlockSlices(b);
    StoreBlocks(b, |pre| + k, x);
    HolePut(pre, hole, post, k, x);
  }

  // ---------------------------------------------------------------- strings

  lemma StringTerminated(t: seq<byte>, off: nat, name: seq<byte>)
    requires 0 !in name && off + |name| + 1 <= |t| && t[off..off + |name| + 1] == name + [0]
    ensures StringAt(t, off) == Some(name)
  {
    var e := off + |name|;
    assert t[e] == t[off..e + 1][|name|];
    forall k | off <= k < e ensures t[k] != 0 {
      assert t[k] == t[off..e + 1][k - off] == name[k - off];
    }
    NulFromIs(t, off, e);
    assert t[off..e] == t[off..e + 1][..|name|];
  }

  lemma {:induction false} NulFromGrows(t: seq<byte>, x: seq<byte>, i: nat)
    requires i <= |t| && NulFrom(t, i) < |t|
    ensures NulFrom(t + x, i) == NulFrom(t, i)
    decreases |t| - i
  {
    if i < |t| && t[i] != 0 {
      NulFromGrows(t, x, i + 1);
    }
  }

  lemma StringGrows(t: seq<byte>, x: seq<byte>, off: nat)
    requires StringAt(t, off).Some?
    ensures StringAt(t + x, off) == StringAt(t, off)
  {
    NulFromGrows(t, x, off);
    assert (t + x)[off..NulFrom(t, off)] == t[off..NulFrom(t, off)];
  }

  /** The name found or added is in the table, which at most grows at its end. */
  lemma FindAddBlocks(b: Blob, name: seq<byte>) returns (x: seq<byte>)
    requires Sound(b) && Ordered(b) && 0 !in name
    requires FindAddString(b, name).off >= 0
    ensures var a := FindAddString(b, name);
      && Struct(a.blob) == Struct(b)
      && Strings(a.blob) == Strings(b) + x
      && StringAt(Strings(a.blob), a.off) == Some(name)
      && a.blob == b.(buf := a.blob.buf, sizeStrings := a.blob.sizeStrings)
  {
    hide StringAt, FindString;
    var a := FindAddString(b, name);
    BlockSlices(b);
    BlockSlices(a.blob);
    if a.grew {
      x := name + [0];
      PutElsewhere(b.buf, DataEnd(b), x, b.offStruct, b.offStruct + b.sizeStruct);
      PutElsewhere(b.buf, DataEnd(b), x, b.offStrings, DataEnd(b));
      PutHere(b.buf, DataEnd(b), x);
      Cut(a.blob.buf, b.offStrings, DataEnd(b), DataEnd(b), DataEnd(a.blob));
    } else {
      x := [];
    }
    StringTerminated(Strings(a.blob), a.off, name);
  }

  // ---------------------------------------------------------------- properties

  /** Filling a hole with a property's words and value makes a property token. */
  lemma FillProp(hole: seq<byte>, nameoff: nat, val: seq<byte>) returns (pad: seq<byte>)
    requires |hole| == 12 + Align4(|val|) && nameoff < WORD && |val| < WORD
    ensures TokenOk(Prop(nameoff, val, pad))
    ensures Put(Put(Put(Put(hole, 0, BE32(PROP)), 8, BE32(nameoff)), 4, BE32(|val|)), 12, val) == BytesOf(Prop(nameoff, val, pad))
  {
    hide BE32;
    pad := hole[12 + |val|..];
    var p, l, n := BE32(PROP), BE32(|val|), BE32(nameoff);
    var h1 := Put(hole, 0, p);
    assert h1 == p + hole[4..];
    var h2 := Put(h1, 8, n);
    assert h2 == p + hole[4..8] + n + hole[12..];
    var h3 := Put(h2, 4, l);
    assert h3 == p + l + n + hole[12..];
    var h4 := Put(h3, 12, val);
    assert h4 == p + l + n + val + pad;
    assert h4 == p + (l + n + val + pad);
  }

  /** A property whose value follows `kept` bytes that stay in place. */
  lemma RefillProp(head: seq<byte>, hole: seq<byte>, nameoff: nat, kept: seq<byte>, val: seq<byte>) returns (pad: seq<byte>)
    requires |hole| == Align4(|kept| + |val|) && |kept| + |val| < WORD && nameoff < WORD
    requires |head| == 12 && head[..4] == BE32(PROP) && head[8..12] == BE32(nameoff)
    requires |kept| <= |hole| && hole[..|kept|] == kept
    ensures TokenOk(Prop(nameoff, kept + val, pad))
    ensures Put(Put(head + hole, 4, BE32(|kept| + |val|)), 12 + |kept|, val) == BytesOf(Prop(nameoff, kept + val, pad))
  {
    hide BE32;
    pad := hole[|kept| + |val|..];
    var p, l, n := BE32(PROP), BE32(|kept| + |val|), BE32(nameoff);
    assert head == p + head[4..8] + n;
    var h1 := Put(head + hole, 4, l);
    assert h1 == p + l + n + hole;
    var h2 := Put(h1, 12 + |kept|, val);
    assert h2 == p + l + n + kept + val + pad;
    assert h2 == p + (l + n + (kept + val) + pad);
  }

  /** Filling a hole with an empty node makes its two tokens. */
  lemma FillNode(hole: seq<byte>, name: seq<byte>) returns (pad: seq<byte>)
    requires |hole| == 8 + Align4(|name| + 1) && 0 !in name
    ensures TokenOk(BeginNode(name, pad))
    ensures var n := Align4(|name| + 1);
      Put(Put(Put(Put(hole, 0, BE32(BEGIN_NODE)), 4, Zeros(n)), 4, name), 4 + n, BE32(END_NODE))
        == BytesOf(BeginNode(name, pad)) + BytesOf(EndNode)
  {
    hide BE32, Zeros, Align4;
    var n := Align4(|name| + 1);
    var b, e, z := BE32(BEGIN_NODE), BE32(END_NODE), Zeros(n);
    pad := z[|name| + 1..];
    ZerosAt(n, |name|);
    assert z == z[..|name|] + [0] + pad;
    var h1 := Put(hole, 0, b);
    assert h1 == b + hole[4..];
    var h2 := Put(h1, 4, z);
    assert h2 == b + z + hole[4 + n..];
    var h3 := Put(h2, 4, name);
    assert h3 == b + (name + [0] + pad) + hole[4 + n..];
    var h4 := Put(h3, 4 + n, e);
    assert h4 == b + (name + [0] + pad) + e;
  }

  lemma {:induction false} ZerosAt(n: nat, i: nat)
    requires i < n
    ensures Zeros(n)[i] == 0
  {
    if i > 0 {
      ZerosAt(n - 1, i - 1);
    }
  }

  // ---------------------------------------------------------------- editors

  /** A property found in the block, and the words of its header. */
  lemma PropHeader(s: seq<byte>, p: nat)
    requires p + 12 <= |s| && U32(s, p) == PROP
    ensures s[p..p + 12][..4] == BE32(PROP) && s[p..p + 12][8..12] == BE32(U32(s, p + 8))
  {
    hide U32, BE32;
    WordBytes(s, p);
    WordBytes(s, p + 8);
    SliceOfSlice(s, p, p + 12, 0, 4);
    SliceOfSlice(s, p, p + 12, 8, 12);
  }

  /** The first bytes of a property's value: none or all of them. */
  ghost predicate Kept(b: Blob, p: nat, kept: seq<byte>)
    requires Sound(b)
  {
    hide NextTag, U32, Align4;
    var s := Struct(b);
    && NextTag(s, p).tag == PROP && p % 4 == 0 && |s| % 4 == 0
    && (kept == [] || (|kept| == PropLen(s, p) && s[p + 12..p + 12 + |kept|] == kept))
  }

  /** The block after room has been made for a new value, which may start with the
      bytes of the old one. */
  lemma ValueHole(b: Blob, p: nat, kept: seq<byte>, newlen: nat) returns (hole: seq<byte>)
    requires Sound(b) && Ordered(b) && Kept(b, p, kept) && |kept| <= newlen
    requires SpliceValue(b, p, newlen).err == 0
    ensures var s := Struct(b);
      var b' := SpliceValue(b, p, newlen).blob;
      && |hole| == Align4(newlen) && |kept| <= |hole| && hole[..|kept|] == kept
      && Struct(b') == s[..p] + (s[p..p + 12] + hole) + s[p + 12 + Align4(PropLen(s, p))..]
      && Strings(b') == Strings(b) && b'.magic == b.magic
  {
    hide U32, NextTag, BE32, Align4, Struct, Strings, PropLen, SpliceStruct;
    var s := Struct(b);
    BlockSlices(b);
    var oldlen := PropLen(s, p);
    hole := SpliceBlocks(b, p + 12, Align4(oldlen), Align4(newlen));
    if kept != [] {
      AlignMono(oldlen, newlen);
      HoleKeeps(b, p + 12, Align4(oldlen), Align4(newlen));
      PrefixOfSlice(s, p + 12, Align4(oldlen), hole, kept);
    }
    SplitHead(s, p, hole, s[p + 12 + Align4(oldlen)..]);
  }

  lemma SplitHead(s: seq<byte>, p: nat, hole: seq<byte>, post: seq<byte>)
    requires p + 12 <= |s|
    ensures s[..p + 12] + hole + post == s[..p] + (s[p..p + 12] + hole) + post
  {
    assert s[..p + 12] == s[..p] + s[p..p + 12];
  }

  /** The blob after `val` has been stored behind the first `at` bytes of the property's value. */
  function Rewrite(b: Blob, p: nat, at: nat, val: seq<byte>): (r: Blob)
    requires Sound(b) && Ordered(b) && NextTag(Struct(b), p).tag == PROP && p % 4 == 0
    requires at + |val| < WORD && SpliceValue(b, p, at + |val|).err == 0
    ensures Sound(r) && Ordered(r)
  {
    hide U32, NextTag, BE32, Align4, Clip, SpliceValue, PropLen;
    var e := SpliceValue(b, p, at + |val|);
    Store(Store(e.blob, p + 4, BE32(at + |val|)), p + 12 + at, val)
  }

  /** The property at `p` now holds `val`; everything around it is as before. */
  ghost predicate Rewritten(b: Blob, p: nat, b': Blob, val: seq<byte>, pad: seq<byte>)
    requires Sound(b) && Sound(b')
  {
    hide U32, NextTag, BE32, Align4, Clip, PropLen, BytesOf, TokenOk;
    var s := Struct(b);
    && NextTag(s, p).tag == PROP && p % 4 == 0 && |s| % 4 == 0 && p + 12 + Align4(PropLen(s, p)) <= |s|
    && var k := Prop(U32(s, p + 8), val, pad);
    && TokenOk(k)
    && Struct(b') == s[..p] + BytesOf(k) + s[p + 12 + Align4(PropLen(s, p))..]
    && Strings(b') == Strings(b) && b'.magic == b.magic
  }

  /** Replacing or extending the value of the property at `p`. */
  lemma RewriteBlocks(b: Blob, p: nat, kept: seq<byte>, val: seq<byte>) returns (pad: seq<byte>)
    requires Sound(b) && Ordered(b) && Kept(b, p, kept) && |kept| + |val| < WORD
    requires SpliceValue(b, p, |kept| + |val|).err == 0
    ensures Rewritten(b, p, Rewrite(b, p, |kept|, val), kept + val, pad)
  {
    hide U32, NextTag, BE32, Align4, Struct, Strings, PropLen, SpliceValue, TokenOk, BytesOf, Put, Store;
    var s := Struct(b);
    BlockSlices(b);
    NextTagFacts(s, p);
    PropHeader(s, p);
    var len := |kept| + |val|;
    var e := SpliceValue(b, p, len);
    var hole := ValueHole(b, p, kept, len);
    var pre, head, post := s[..p], s[p..p + 12], s[p + 12 + Align4(PropLen(s, p))..];
    pad := RefillProp(head, hole, U32(s, p + 8), kept, val);
    TwoStores(e.blob, pre, head + hole, post, BE32(len), 12 + |kept|, val);
  }

  /** A word stored at offset 4 of a hole, and then bytes further on. */
  lemma TwoStores(b: Blob, pre: seq<byte>, hole: seq<byte>, post: seq<byte>, w: seq<byte>, at: nat, x: seq<byte>)
    requires Sound(b) && Ordered(b) && Struct(b) == pre + hole + post && |w| == 4 && 8 <= |hole| && at + |x| <= |hole|
    ensures |pre| + 8 <= b.sizeStruct && |pre| + at + |x| <= b.sizeStruct
    ensures var b' := Store(Store(b, |pre| + 4, w), |pre| + at, x);
      && Struct(b') == pre + Put(Put(hole, 4, w), at, x) + post && Strings(b') == Strings(b) && b'.magic == b.magic
  {
    hide Put, Struct, Strings;
    StoreInHole(b, pre, hole, post, 4, w);
    StoreInHole(Store(b, |pre| + 4, w), pre, Put(hole, 4, w), post, at, x);
  }

  lemma PrefixOfSlice(s: seq<byte>, at: nat, n: nat, hole: seq<byte>, kept: seq<byte>)
    requires at + n <= |s| && n <= |hole| && hole[..n] == s[at..at + n]
    requires |kept| <= n && s[at..at + |kept|] == kept
    ensures hole[..|kept|] == kept
  {
    assert hole[..|kept|] == hole[..n][..|kept|];
    SliceOfSlice(s, at, at + n, 0, |kept|);
  }

  lemma AlignMono(a: nat, b: nat)
    ensures a <= b ==> Align4(a) <= Align4(b)
  {
  }

  /** Inserting a new property right after a node's begin tag. */
  lemma AddPropertyBlocks(b: Blob, node: int, name: seq<byte>, val: seq<byte>) returns (nameoff: nat, pad: seq<byte>, x: seq<byte>)
    requires Sound(b) && Ordered(b) && |val| < WORD && 0 !in name
    requires AddProperty(b, node, name, |val|).err == 0
    ensures var r := AddProperty(b, node, name, |val|);
      var next := CheckNodeOffset(Struct(b), node);
      var b' := Store(r.blob, r.prop + 12, val);
      var k := Prop(nameoff, val, pad);
      && TokenOk(k)
      && 0 <= next <= |Struct(b)|
      && Struct(b') == Struct(b)[..next] + BytesOf(k) + Struct(b)[next..]
      && Strings(b') == Strings(b) + x
      && StringAt(Strings(b'), nameoff) == Some(name)
      && b'.magic == b.magic
  {
    hide U32, NextTag, BE32, Align4, Struct, Strings, StringAt, FindAddString, Put, TokenOk, BytesOf, RoProbe;
    var s := Struct(b);
    BlockSlices(b);
    var next := CheckNodeOffset(s, node);
    var a := FindAddString(b, name);
    x := FindAddBlocks(b, name);
    nameoff := a.off;
    var e := SpliceStruct(a.blob, next, 0, 12 + Align4(|val|));
    var hole := SpliceBlocks(a.blob, next, 0, 12 + Align4(|val|));
    var pre, post := s[..next], s[next..];
    pad := FillProp(hole, nameoff, val);
    StoreInHole(e.blob, pre, hole, post, 0, BE32(PROP));
    var b1, h1 := Store(e.blob, next, BE32(PROP)), Put(hole, 0, BE32(PROP));
    StoreInHole(b1, pre, h1, post, 8, BE32(nameoff));
    var b2, h2 := Store(b1, next + 8, BE32(nameoff)), Put(h1, 8, BE32(nameoff));
    StoreInHole(b2, pre, h2, post, 4, BE32(|val|));
    var b3, h3 := Store(b2, next + 4, BE32(|val|)), Put(h2, 4, BE32(|val|));
    StoreInHole(b3, pre, h3, post, 12, val);
  }

  lemma SpliceFails(b: Blob, q: nat, oldlen: nat, newlen: nat)
    requires Sound(b) && Ordered(b) && q + oldlen <= b.sizeStruct && oldlen % 4 == 0 && newlen % 4 == 0
    ensures var e := SpliceStruct(b, q, oldlen, newlen); e.err != 0 ==> e == Edited(-NOSPACE, b) && newlen > oldlen
  {
  }

  /** A property that does not fit leaves both blocks as they were: a name added to
      the strings block is taken back. */
  lemma AddPropertyFails(b: Blob, node: int, name: seq<byte>, len: nat)
    requires Sound(b) && Ordered(b) && len < WORD && 0 !in name
    requires CheckNodeOffset(Struct(b), node) >= 0
    ensures var r := AddProperty(b, node, name, len);
      r.err != 0 ==> r.err == -NOSPACE && Struct(r.blob) == Struct(b) && Strings(r.blob) == Strings(b) && r.blob == b.(buf := r.blob.buf)
  {
    hide U32, NextTag, BE32, Align4, StringAt, Struct, Strings;
    hide SpliceStruct;
    var a := FindAddString(b, name);
    BlockSlices(b);
    BlockSlices(a.blob);
    NextTagFacts(Struct(b), node);
    if a.off >= 0 {
      SpliceFails(a.blob, CheckNodeOffset(Struct(b), node), 0, 12 + Align4(len));
      var x := FindAddBlocks(b, name);
      var r := AddProperty(b, node, name, len);
      if r.err != 0 {
        BlockSlices(r.blob);
        if a.grew {
          PutElsewhere(b.buf, DataEnd(b), name + [0], b.offStrings, DataEnd(b));
        }
      }
    }
  }
}
