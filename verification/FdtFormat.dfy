/** The structure block of a flattened device tree (version 17) as the low-level
    walkers of fdt.c see it, and as a sequence of tokens. */
module FdtFormat {
  import opened Bytes

  const BEGIN_NODE: nat := 1
  const END_NODE: nat := 2
  const PROP: nat := 3
  const NOP: nat := 4
  const END: nat := 9

  const NOTFOUND: int := 1
  const EXISTS: int := 2
  const NOSPACE: int := 3
  const BADOFFSET: int := 4
  const BADPATH: int := 5
  const BADPHANDLE: int := 6
  const BADSTATE: int := 7
  const TRUNCATED: int := 8
  const BADMAGIC: int := 9
  const BADSTRUCTURE: int := 11
  const BADLAYOUT: int := 12
  const INTERNAL: int := 13
  const BADOVERLAY: int := 16
  const NOPHANDLES: int := 17
  const BADFLAGS: int := 18

  // ---------------------------------------------------------------- walking

  /** What fdt_next_tag returns: a tag, and the next offset or a negated error. */
  datatype Step = Step(tag: nat, next: int)

  function NextTag(s: seq<byte>, start: int): (r: Step)
    ensures r.tag != END ==> 0 <= start && start + 4 <= |s| && start + 4 <= r.next
  {
    if start < 0 || start + 4 > |s| then Step(END, -TRUNCATED)
    else
      var tag := U32(s, start);
      if tag == BEGIN_NODE then
        var e := NulFrom(s, start + 4);
        if e == |s| then Step(END, -BADSTRUCTURE) else Step(tag, Align4(e + 1))
      else if tag == PROP then
        if start + 8 > |s| then Step(END, -BADSTRUCTURE)
        else
          var end := start + 12 + U32(s, start + 4);
          if end > |s| then Step(END, -BADSTRUCTURE) else Step(tag, Align4(end))
      else if tag in {END_NODE, NOP, END} then Step(tag, Align4(start + 4))
      else Step(END, -BADSTRUCTURE)
  }

  lemma NextTagFacts(s: seq<byte>, start: int)
    ensures var r := NextTag(s, start);
      && r.tag in {BEGIN_NODE, END_NODE, PROP, NOP, END}
      && (r.tag == END ==> r.next == -TRUNCATED || r.next == -BADSTRUCTURE || start + 4 <= r.next)
      && (r.next >= 0 ==> 0 <= start && start + 4 <= |s| && r.next % 4 == 0 && U32(s, start) == r.tag && r.next < |s| + 4)
      && (r.tag == PROP ==> start + 12 + U32(s, start + 4) <= |s| && r.next == Align4(start + 12 + U32(s, start + 4)))
      && (r.tag == BEGIN_NODE ==> NulFrom(s, start + 4) < |s| && r.next == Align4(NulFrom(s, start + 4) + 1))
  {
    hide U32, NulFrom;
  }

  lemma NextTagBegin(s: seq<byte>, start: nat, len: nat)
    requires start % 4 == 0 && start + 4 + len < |s|
    requires U32(s, start) == BEGIN_NODE && NulFrom(s, start + 4) == start + 4 + len
    ensures NextTag(s, start) == Step(BEGIN_NODE, start + 4 + Align4(len + 1))
  {
    hide U32, NulFrom;
    AlignShift(start + 4, len + 1);
  }

  lemma NextTagProp(s: seq<byte>, start: nat, len: nat)
    requires start % 4 == 0 && start + 12 + len <= |s|
    requires U32(s, start) == PROP && U32(s, start + 4) == len
    ensures NextTag(s, start) == Step(PROP, start + 12 + Align4(len))
  {
    hide U32, NulFrom;
    AlignShift(start + 12, len);
  }

  function CheckNodeOffset(s: seq<byte>, off: int): (r: int)
    ensures r >= 0 ==> 0 <= off && off + 4 <= r && NextTag(s, off) == Step(BEGIN_NODE, r) && off % 4 == 0
  {
    if off < 0 || off % 4 != 0 || NextTag(s, off).tag != BEGIN_NODE then -BADOFFSET
    else NextTag(s, off).next
  }

  function CheckPropOffset(s: seq<byte>, off: int): (r: int)
    ensures r >= 0 ==> 0 <= off && off + 4 <= r && NextTag(s, off) == Step(PROP, r) && off % 4 == 0
  {
    if off < 0 || off % 4 != 0 || NextTag(s, off).tag != PROP then -BADOFFSET
    else NextTag(s, off).next
  }

  /** Offset and depth as fdt_next_node leaves them. */
  datatype Place = Place(offset: int, depth: int)

  /** The loop of fdt_next_node with a depth counter, from the tag at `pos`. */
  function NextNodeFrom(s: seq<byte>, pos: nat, depth: int): (r: Place)
    ensures r.offset >= 0 && r.depth >= 0 ==> pos <= r.offset < |s| && NextTag(s, r.offset).tag == BEGIN_NODE
    ensures r.offset >= 0 && r.depth >= 0 && pos % 4 == 0 ==> r.offset % 4 == 0
    ensures depth >= 0 ==> r.depth >= -1
    ensures depth >= 0 && r.depth < 0 ==> pos < r.offset < |s| + 4 && r.offset % 4 == 0
    decreases |s| - pos
  {
    NextTagFacts(s, pos);
    var t := NextTag(s, pos);
    if t.tag == BEGIN_NODE then Place(pos, depth + 1)
    else if t.tag == END_NODE then
      if depth - 1 < 0 then Place(t.next, depth - 1) else NextNodeFrom(s, t.next, depth - 1)
    else if t.tag == END then
      Place(if t.next >= 0 then -NOTFOUND else t.next, depth)
    else NextNodeFrom(s, t.next, depth)
  }

  function NextNode(s: seq<byte>, off: int, depth: int): (r: Place)
    ensures r.offset >= 0 && r.depth >= 0 ==> r.offset < |s| && NextTag(s, r.offset).tag == BEGIN_NODE && r.offset % 4 == 0
    ensures off >= 0 && r.offset >= 0 && r.depth >= 0 ==> off < r.offset
    ensures depth >= 0 ==> r.depth >= -1
    ensures depth >= 0 && r.depth < 0 ==> off < r.offset < |s| + 4 && r.offset % 4 == 0
    ensures off >= 0 && r.offset >= 0 ==> off % 4 == 0
  {
    NextTagFacts(s, off);
    if off >= 0 then
      var n := CheckNodeOffset(s, off);
      if n < 0 then Place(n, depth) else NextNodeFrom(s, n, depth)
    else NextNodeFrom(s, 0, depth)
  }

  // ---------------------------------------------------------------- tokens

  /** One tagged item with its alignment padding. A property holds the string
      offset exactly as stored. */
  datatype Token =
    | BeginNode(name: seq<byte>, pad: seq<byte>)
    | EndNode
    | Prop(nameoff: nat, val: seq<byte>, pad: seq<byte>)
    | Nop

  ghost predicate TokenOk(t: Token) {
    match t
    case BeginNode(name, pad) => 0 !in name && (|name| + 1 + |pad|) == Align4(|name| + 1)
    case Prop(nameoff, val, pad) => nameoff < WORD && |val| < WORD && |val| + |pad| == Align4(|val|)
    case _ => true
  }

  function TagOf(t: Token): nat {
    match t
    case BeginNode(_, _) => BEGIN_NODE
    case EndNode => END_NODE
    case Prop(_, _, _) => PROP
    case Nop => NOP
  }

  /** Encoded length, padding included. */
  function Size(t: Token): (n: nat)
    ensures n >= 4 && n % 4 == 0
  {
    hide Align4;
    match t
    case BeginNode(name, _) => 4 + Align4(|name| + 1)
    case Prop(_, val, _) => 12 + Align4(|val|)
    case _ => 4
  }

  ghost function BytesOf(t: Token): (b: seq<byte>)
    requires TokenOk(t)
    ensures |b| == Size(t)
  {
    match t
    case BeginNode(name, pad) => BE32(BEGIN_NODE) + (name + [0] + pad)
    case EndNode => BE32(END_NODE)
    case Prop(nameoff, val, pad) => BE32(PROP) + (BE32(|val|) + BE32(nameoff) + val + pad)
    case Nop => BE32(NOP)
  }

  ghost predicate AllOk(toks: seq<Token>) {
    forall i :: 0 <= i < |toks| ==> TokenOk(toks[i])
  }

  ghost function Flat(toks: seq<Token>): (b: seq<byte>)
    requires AllOk(toks)
  {
    if toks == [] then [] else BytesOf(toks[0]) + Flat(toks[1..])
  }

  lemma {:induction false} FlatConcat(a: seq<Token>, b: seq<Token>)
    requires AllOk(a) && AllOk(b)
    ensures AllOk(a + b) && Flat(a + b) == Flat(a) + Flat(b)
  {
    hide BytesOf, TokenOk;
    if a == [] {
      assert a + b == b;
    } else {
      FlatConcat(a[1..], b);
      assert (a + b)[1..] == a[1..] + b;
      Assoc(BytesOf(a[0]), Flat(a[1..]), Flat(b));
    }
  }

  lemma FlatOne(t: Token)
    requires TokenOk(t)
    ensures Flat([t]) == BytesOf(t)
  {
    assert [t][1..] == [];
  }

  /** The structure block holds exactly these tokens and then an end tag. */
  ghost predicate Holds(s: seq<byte>, toks: seq<Token>) {
    AllOk(toks) && Flat(toks) + BE32(END) <= s
  }

  lemma NulAfter(a: seq<byte>, name: seq<byte>, post: seq<byte>)
    requires 0 !in name
    ensures NulFrom(a + name + [0] + post, |a|) == |a| + |name|
  {
    hide NulFrom;
    var s, e := a + name + [0] + post, |a| + |name|;
    assert s[e] == 0;
    forall k | |a| <= k < e ensures s[k] != 0 {
      assert s[k] == name[k - |a|];
    }
    NulFromIs(s, |a|, e);
  }

  lemma ReadsBegin(pre: seq<byte>, name: seq<byte>, post: seq<byte>)
    requires |pre| % 4 == 0 && 0 !in name
    ensures var s := pre + BE32(BEGIN_NODE) + (name + [0] + post);
      && NulFrom(s, |pre| + 4) == |pre| + 4 + |name|
      && NextTag(s, |pre|) == Step(BEGIN_NODE, |pre| + 4 + Align4(|name| + 1))
  {
    hide U32, BE32, NulFrom, Align4, NextTag;
    var w := BE32(BEGIN_NODE);
    var body := name + [0] + post;
    var s := pre + w + body;
    WordInside(pre, BEGIN_NODE, body);
    assert (pre + w) + name + [0] + post == s;
    NulAfter(pre + w, name, post);
    NextTagBegin(s, |pre|, |name|);
  }

  lemma ReadsProp(pre: seq<byte>, nameoff: nat, val: seq<byte>, post: seq<byte>)
    requires |pre| % 4 == 0 && nameoff < WORD && |val| < WORD
    ensures var s := pre + BE32(PROP) + (BE32(|val|) + BE32(nameoff) + val + post);
      && NextTag(s, |pre|) == Step(PROP, |pre| + 12 + Align4(|val|))
      && U32(s, |pre| + 4) == |val|
      && U32(s, |pre| + 8) == nameoff
  {
    hide U32, BE32, NulFrom, Align4, NextTag;
    var t, l, n := BE32(PROP), BE32(|val|), BE32(nameoff);
    var s := pre + t + (l + n + val + post);
    WordInside(pre, PROP, l + n + val + post);
    assert s == (pre + t) + l + (n + val + post);
    WordInside(pre + t, |val|, n + val + post);
    assert s == (pre + t + l) + n + (val + post);
    WordInside(pre + t + l, nameoff, val + post);
    NextTagProp(s, |pre|, |val|);
  }

  /** The name or the value that a token carries, and where it starts in the token. */
  function Content(t: Token): seq<byte> {
    match t
    case BeginNode(name, _) => name
    case Prop(_, val, _) => val
    case _ => []
  }

  function ContentAt(t: Token): nat {
    match t
    case BeginNode(_, _) => 4
    case Prop(_, _, _) => 12
    case _ => 0
  }

  lemma ContentInside(pre: seq<byte>, t: Token, post: seq<byte>)
    requires TokenOk(t)
    ensures ContentAt(t) + |Content(t)| <= |BytesOf(t)|
    ensures var c := |pre| + ContentAt(t); (pre + BytesOf(t) + post)[c..c + |Content(t)|] == Content(t)
  {
    hide BE32, Align4;
    var b := BytesOf(t);
    assert b[ContentAt(t)..ContentAt(t) + |Content(t)|] == Content(t);
    var s := pre + b + post;
    var c := |pre| + ContentAt(t);
    assert s[c..c + |Content(t)|] == b[ContentAt(t)..ContentAt(t) + |Content(t)|];
  }

  lemma Regroup(pre: seq<byte>, w: seq<byte>, body: seq<byte>, post: seq<byte>)
    ensures pre + (w + body) + post == pre + w + (body + post)
  {
  }

  lemma ReadsBeginToken(pre: seq<byte>, t: Token, post: seq<byte>)
    requires TokenOk(t) && t.BeginNode? && |pre| % 4 == 0
    ensures var s := pre + BytesOf(t) + post;
      && NextTag(s, |pre|) == Step(BEGIN_NODE, |pre| + Size(t))
      && NulFrom(s, |pre| + 4) == |pre| + 4 + |t.name|
  {
    hide U32, BE32, NulFrom, Align4, NextTag;
    Regroup(pre, BE32(BEGIN_NODE), t.name + [0] + t.pad, post);
    Assoc(t.name + [0], t.pad, post);
    ReadsBegin(pre, t.name, t.pad + post);
  }

  lemma ReadsPropToken(pre: seq<byte>, t: Token, post: seq<byte>)
    requires TokenOk(t) && t.Prop? && |pre| % 4 == 0
    ensures var s := pre + BytesOf(t) + post;
      && NextTag(s, |pre|) == Step(PROP, |pre| + Size(t))
      && U32(s, |pre| + 4) == |t.val|
      && U32(s, |pre| + 8) == t.nameoff
  {
    hide U32, BE32, NulFrom, Align4, NextTag;
    var head := BE32(|t.val|) + BE32(t.nameoff) + t.val;
    Regroup(pre, BE32(PROP), head + t.pad, post);
    Assoc(head, t.pad, post);
    ReadsProp(pre, t.nameoff, t.val, t.pad + post);
  }

  /** fdt_next_tag reads back one encoded token, whatever surrounds it. */
  lemma NextTagReads(pre: seq<byte>, t: Token, post: seq<byte>)
    requires TokenOk(t) && |pre| % 4 == 0
    ensures var s := pre + BytesOf(t) + post;
      && NextTag(s, |pre|) == Step(TagOf(t), |pre| + Size(t))
      && (t.BeginNode? ==> NulFrom(s, |pre| + 4) == |pre| + 4 + |t.name|)
      && (t.Prop? ==> U32(s, |pre| + 4) == |t.val| && U32(s, |pre| + 8) == t.nameoff)
  {
    hide U32, BE32, NulFrom, Align4, NextTag;
    match t
    case BeginNode(_, _) => ReadsBeginToken(pre, t, post);
    case Prop(_, _, _) => ReadsPropToken(pre, t, post);
    case EndNode => ReadsPlain(pre, END_NODE, post);
    case Nop => ReadsPlain(pre, NOP, post);
  }

  lemma ReadsPlain(pre: seq<byte>, tag: nat, post: seq<byte>)
    requires |pre| % 4 == 0 && tag in {END_NODE, NOP, END}
    ensures NextTag(pre + BE32(tag) + post, |pre|) == Step(tag, |pre| + 4)
  {
    hide U32, BE32, NulFrom;
    WordInside(pre, tag, post);
  }

  ghost predicate Suffix<T>(rest: seq<T>, all: seq<T>) {
    |rest| <= |all| && all[|all| - |rest|..] == rest
  }

  lemma SuffixTail<T>(rest: seq<T>, all: seq<T>)
    requires Suffix(rest, all) && rest != []
    ensures Suffix(rest[1..], all)
  {
  }

  /** Encoded length of a token sequence. */
  function Len(toks: seq<Token>): (n: nat)
    ensures n % 4 == 0
  {
    if toks == [] then 0 else Size(toks[0]) + Len(toks[1..])
  }

  lemma {:induction false} LenFlat(toks: seq<Token>)
    requires AllOk(toks)
    ensures |Flat(toks)| == Len(toks)
  {
    if toks != [] {
      LenFlat(toks[1..]);
    }
  }

  lemma {:induction false} LenConcat(a: seq<Token>, b: seq<Token>)
    ensures Len(a + b) == Len(a) + Len(b)
  {
    if a == [] {
      assert a + b == b;
    } else {
      LenConcat(a[1..], b);
      assert (a + b)[1..] == a[1..] + b;
    }
  }

  /** Offset in the block of the token sequence `rest`, a suffix of the block's tokens. */
  function At(toks: seq<Token>, rest: seq<Token>): (pos: nat)
    requires Suffix(rest, toks)
    ensures pos % 4 == 0
  {
    LenSuffix(toks, rest);
    Len(toks) - Len(rest)
  }

  lemma LenSuffix(toks: seq<Token>, rest: seq<Token>)
    requires Suffix(rest, toks)
    ensures Len(toks) == Len(toks[..|toks| - |rest|]) + Len(rest)
  {
    assert toks == toks[..|toks| - |rest|] + rest;
    LenConcat(toks[..|toks| - |rest|], rest);
  }

  lemma SuffixSplit(toks: seq<Token>, rest: seq<Token>)
    requires AllOk(toks) && Suffix(rest, toks)
    ensures AllOk(rest) && AllOk(toks[..|toks| - |rest|])
    ensures Flat(toks) == Flat(toks[..|toks| - |rest|]) + Flat(rest)
    ensures At(toks, rest) == |Flat(toks[..|toks| - |rest|])|
  {
    var a := toks[..|toks| - |rest|];
    assert toks == a + rest;
    forall i | 0 <= i < |rest| ensures TokenOk(rest[i]) {
      assert rest[i] == toks[|toks| - |rest| + i];
    }
    FlatConcat(a, rest);
    LenFlat(toks);
    LenFlat(a);
    LenFlat(rest);
  }

  /** What the walkers find at the position of a suffix: its first token, whole. */
  ghost predicate Shows(s: seq<byte>, pos: nat, t: Token) {
    && pos + Size(t) + 4 <= |s|
    && NextTag(s, pos) == Step(TagOf(t), pos + Size(t))
    && (t.BeginNode? ==> NulFrom(s, pos + 4) == pos + 4 + |t.name|)
    && (t.Prop? ==> U32(s, pos + 4) == |t.val| && U32(s, pos + 8) == t.nameoff)
    && ContentAt(t) + |Content(t)| <= Size(t)
    && s[pos + ContentAt(t)..pos + ContentAt(t) + |Content(t)|] == Content(t)
  }

  lemma ReadAt(s: seq<byte>, toks: seq<Token>, rest: seq<Token>)
    requires Holds(s, toks) && Suffix(rest, toks) && rest != []
    ensures Shows(s, At(toks, rest), rest[0])
    ensures Suffix(rest[1..], toks) && At(toks, rest[1..]) == At(toks, rest) + Size(rest[0])
  {
    hide U32, BE32, NulFrom, NextTag, BytesOf;
    SuffixSplit(toks, rest);
    var a := Flat(toks[..|toks| - |rest|]);
    var tail := s[|Flat(toks)| + 4..];
    SuffixTail(rest, toks);
    var post := Flat(rest[1..]) + BE32(END) + tail;
    assert s == a + BytesOf(rest[0]) + post;
    NextTagReads(a, rest[0], post);
    ContentInside(a, rest[0], post);
  }

  lemma ReadEnd(s: seq<byte>, toks: seq<Token>)
    requires Holds(s, toks)
    ensures NextTag(s, Len(toks)) == Step(END, Len(toks) + 4) && Len(toks) + 4 <= |s|
  {
    hide U32, BE32, NulFrom, NextTag;
    LenFlat(toks);
    var tail := s[|Flat(toks)| + 4..];
    assert s == Flat(toks) + BE32(END) + tail;
    ReadsPlain(Flat(toks), END, tail);
  }
}
