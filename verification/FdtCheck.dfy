/** fdt_check_full and what it accepts. */
module FdtCheck {
  import opened Wrappers
  import opened Bytes
  import opened FdtFormat
  import opened FdtTree
  import opened FdtRead
  import opened FdtEdit
  import opened FdtEditBlocks
  import opened FdtEditTheorems
  import opened FdtBuild

  function CheckHeader(b: Blob): int {
    if b.magic != MAGIC then -BADMAGIC
    else if b.total < HEADER || b.total > INT_MAX then -TRUNCATED
    else if b.offRsv < HEADER || b.offRsv > b.total then -TRUNCATED
    else if b.offStruct < HEADER || b.offStruct + b.sizeStruct > b.total then -TRUNCATED
    else if b.offStrings < HEADER || b.offStrings + b.sizeStrings > b.total then -TRUNCATED
    else 0
  }

  /** The size word of reservation entry `i` is zero. */
  predicate RsvEnds(b: Blob, i: nat)
    requires b.total <= |b.buf| && b.offRsv + RSV_ENTRY * (i + 1) <= b.total
  {
    var at := b.offRsv + RSV_ENTRY * i + 8;
    U32(b.buf, at) == 0 && U32(b.buf, at + 4) == 0
  }

  /** fdt_num_mem_rsv from entry `i` on. */
  function NumMemRsv(b: Blob, i: nat): (r: int)
    requires b.total <= |b.buf|
    ensures r >= 0 ==> r >= i && b.offRsv + RSV_ENTRY * (r + 1) <= b.total && RsvEnds(b, r)
    decreases b.total - (b.offRsv + RSV_ENTRY * i)
  {
    hide U32;
    if b.offRsv + RSV_ENTRY * i + RSV_ENTRY > b.total then -TRUNCATED
    else if RsvEnds(b, i) then i
    else NumMemRsv(b, i + 1)
  }

  /** The walk of fdt_check_full from the tag at `pos`. */
  function CheckWalk(s: seq<byte>, t: seq<byte>, pos: nat, depth: nat): (r: int)
    ensures r <= 0
    decreases |s| - pos
  {
    hide U32, NulFrom, NextTag;
    NextTagFacts(s, pos);
    var k := NextTag(s, pos);
    if k.next < 0 then k.next
    else if k.tag == NOP then CheckWalk(s, t, k.next, depth)
    else if k.tag == END then (if depth != 0 then -BADSTRUCTURE else 0)
    else if k.tag == BEGIN_NODE then CheckWalk(s, t, k.next, depth + 1)
    else if k.tag == END_NODE then (if depth == 0 then -BADSTRUCTURE else CheckWalk(s, t, k.next, depth - 1))
    else if CheckPropOffset(s, pos) < 0 then CheckPropOffset(s, pos)
    else if StringAt(t, U32(s, pos + 8)).None? then StringError(t, U32(s, pos + 8))
    else CheckWalk(s, t, k.next, depth)
  }

  function CheckFull(b: Blob, bufsize: nat): int
    requires b.total <= |b.buf| && b.total != INT_MAX
  {
    if bufsize < 28 then -TRUNCATED
    else if CheckHeader(b) != 0 then CheckHeader(b)
    else if bufsize < b.total then -TRUNCATED
    else if NumMemRsv(b, 0) < 0 then NumMemRsv(b, 0)
    else CheckWalk(Struct(b), Strings(b), 0, 0)
  }

  /** Begin and end items match up, `depth` nodes being open already. */
  predicate Balanced(x: seq<Item>, depth: nat) {
    if x == [] then depth == 0
    else match x[0]
      case IBegin(_) => Balanced(x[1..], depth + 1)
      case IEnd => depth > 0 && Balanced(x[1..], depth - 1)
      case _ => Balanced(x[1..], depth)
  }

  // ---------------------------------------------------------------- acceptance

  /** A block of well-formed tokens is accepted exactly when its items are balanced and
      every property's name denotes a string. */
  lemma {:induction false} WalkVerdict(s: seq<byte>, t: seq<byte>, toks: seq<Token>, rest: seq<Token>, depth: nat)
    requires Holds(s, toks) && Suffix(rest, toks)
    ensures CheckWalk(s, t, At(toks, rest), depth) == 0 <==> Named(Items(rest, t)) && Balanced(Items(rest, t), depth)
  {
    hide NextTag, U32, NulFrom, Holds, At, StringAt, Size, Named;
    var x := Items(rest, t);
    if rest == [] {
      EndAt(s, toks);
      assert Named([]) by { NamedNothing(); }
    } else {
      StepAt(s, toks, rest);
      ItemsTail(rest, t);
      NamedCons(x);
      var d := if rest[0].BeginNode? then depth + 1 else if rest[0].EndNode? then depth - 1 else depth;
      if d >= 0 {
        WalkVerdict(s, t, toks, rest[1..], d);
      }
    }
  }

  lemma NamedNothing()
    ensures Named([])
  {
  }

  lemma NamedCons(x: seq<Item>)
    requires x != []
    ensures Named(x) <==> Named(x[1..]) && (x[0].IProp? ==> x[0].name.Some?)
  {
    assert forall i :: 0 <= i < |x[1..]| ==> x[1..][i] == x[i + 1];
    assert forall i :: 1 <= i < |x| ==> x[i] == x[1..][i - 1];
  }

  // ---------------------------------------------------------------- the converse: parsing

  lemma ParseBegin(s: seq<byte>, pos: nat) returns (k: Token)
    requires pos % 4 == 0 && NextTag(s, pos).tag == BEGIN_NODE && NextTag(s, pos).next <= |s|
    ensures TokenOk(k) && k.BeginNode?
    ensures pos + Size(k) == NextTag(s, pos).next <= |s| && s[pos..pos + Size(k)] == BytesOf(k)
  {
    hide U32, BE32, NulFrom, NextTag, Align4;
    NextTagFacts(s, pos);
    WordBytes(s, pos);
    var e := NulFrom(s, pos + 4);
    NulFromFacts(s, pos + 4);
    AlignShift(pos + 4, e - pos - 4 + 1);
    var n := pos + 4 + Align4(e - pos - 4 + 1);
    k := BeginNode(s[pos + 4..e], s[e + 1..n]);
    assert s[pos..n] == s[pos..pos + 4] + (s[pos + 4..e] + [s[e]] + s[e + 1..n]);
  }

  lemma ParseProp(s: seq<byte>, pos: nat) returns (k: Token)
    requires pos % 4 == 0 && NextTag(s, pos).tag == PROP && NextTag(s, pos).next <= |s|
    ensures TokenOk(k) && k.Prop?
    ensures pos + Size(k) == NextTag(s, pos).next <= |s| && s[pos..pos + Size(k)] == BytesOf(k)
  {
    hide U32, BE32, NulFrom, NextTag, Align4;
    NextTagFacts(s, pos);
    WordBytes(s, pos);
    var len := U32(s, pos + 4);
    AlignShift(pos + 12, len);
    var n := pos + 12 + Align4(len);
    WordBytes(s, pos + 4);
    WordBytes(s, pos + 8);
    k := Prop(U32(s, pos + 8), s[pos + 12..pos + 12 + len], s[pos + 12 + len..n]);
    FiveParts(s, pos, len, n);
  }

  lemma FiveParts(s: seq<byte>, pos: nat, len: nat, n: nat)
    requires pos + 12 + len <= n <= |s|
    ensures s[pos..n] == s[pos..pos + 4] + (s[pos + 4..pos + 8] + s[pos + 8..pos + 12] + s[pos + 12..pos + 12 + len] + s[pos + 12 + len..n])
  {
  }

  /** The token that fdt_next_tag skipped. */
  lemma ParseOne(s: seq<byte>, pos: nat) returns (k: Token)
    requires pos % 4 == 0 && 0 <= NextTag(s, pos).next <= |s| && NextTag(s, pos).tag != END
    ensures TokenOk(k) && TagOf(k) == NextTag(s, pos).tag
    ensures pos + Size(k) == NextTag(s, pos).next <= |s| && s[pos..pos + Size(k)] == BytesOf(k)
  {
    hide U32, BE32, NulFrom, NextTag, Align4;
    NextTagFacts(s, pos);
    var tag := NextTag(s, pos).tag;
    if tag == BEGIN_NODE {
      k := ParseBegin(s, pos);
    } else if tag == PROP {
      k := ParseProp(s, pos);
    } else {
      WordBytes(s, pos);
      PlainNext(s, pos);
      k := if tag == END_NODE then EndNode else Nop;
    }
  }

  lemma PlainNext(s: seq<byte>, pos: nat)
    requires pos % 4 == 0 && NextTag(s, pos).next >= 0 && NextTag(s, pos).tag in {END_NODE, NOP, END}
    ensures NextTag(s, pos).next == pos + 4
  {
    hide U32, NulFrom;
  }

  /** Whatever the walk accepts is a sequence of whole tokens followed by an end tag. */
  lemma {:induction false} Parse(s: seq<byte>, t: seq<byte>, pos: nat, depth: nat) returns (toks: seq<Token>)
    requires pos % 4 == 0
    requires CheckWalk(s, t, pos, depth) == 0
    ensures pos <= |s| && AllOk(toks) && Flat(toks) + BE32(END) <= s[pos..]
    decreases |s| - pos
  {
    hide U32, BE32, NulFrom, NextTag, Size, BytesOf, TokenOk;
    NextTagFacts(s, pos);
    var k := NextTag(s, pos);
    if k.tag == END {
      toks := [];
      WordBytes(s, pos);
      assert Flat(toks) == [];
      assert BE32(END) == s[pos..][..4];
    } else {
      var d := if k.tag == BEGIN_NODE then depth + 1 else if k.tag == END_NODE then depth - 1 else depth;
      AcceptedInside(s, t, k.next, d);
      var one := ParseOne(s, pos);
      var more := Parse(s, t, k.next, d);
      toks := [one] + more;
      assert toks[1..] == more;
      OkCons(toks);
      assert s[pos..] == s[pos..k.next] + s[k.next..];
      Prefixed(BytesOf(one), Flat(more), BE32(END), s[k.next..]);
    }
  }

  lemma AcceptedInside(s: seq<byte>, t: seq<byte>, pos: nat, depth: nat)
    requires CheckWalk(s, t, pos, depth) == 0
    ensures pos + 4 <= |s|
  {
    hide U32, NulFrom, NextTag, StringAt;
    NextTagFacts(s, pos);
  }

  lemma Prefixed(a: seq<byte>, b: seq<byte>, c: seq<byte>, r: seq<byte>)
    requires b + c <= r
    ensures (a + b) + c <= a + r
  {
    assert (a + b) + c == a + (b + c);
  }

  // ---------------------------------------------------------------- 32-bit lengths

  /** fdt_next_tag as it is computed: the length of a property is added in 32-bit
      arithmetic, so one of the twelve largest lengths yields a short step. */
  function NextTag32(s: seq<byte>, start: int): Step {
    if start < 0 || start + 8 > |s| || U32(s, start) != PROP then NextTag(s, start)
    else
      var len := (12 + U32(s, start + 4)) % WORD;
      if start + len > |s| then Step(END, -BADSTRUCTURE) else Step(PROP, Align4(start + len))
  }

  /** The property at `start` has such a length, and the short step stays in the block. */
  predicate Wraps(s: seq<byte>, start: int) {
    && 0 <= start && start + 8 <= |s| && U32(s, start) == PROP
    && U32(s, start + 4) >= WORD - 12 && start + 12 + U32(s, start + 4) - WORD <= |s|
  }

  /** This is the only place where the step differs from the one in exact integers. */
  lemma NextTagExact(s: seq<byte>, start: int)
    requires |s| < WORD
    ensures NextTag32(s, start) == NextTag(s, start) <==> !Wraps(s, start)
    ensures Wraps(s, start) ==> NextTag(s, start) == Step(END, -BADSTRUCTURE)
  {
    hide U32, NulFrom, Align4;
    if start >= 0 && start + 8 <= |s| && U32(s, start) == PROP {
      var len := U32(s, start + 4);
      assert (12 + len) % WORD == if len >= WORD - 12 then 12 + len - WORD else 12 + len;
    }
  }

  /** The walk ends with a verdict, or goes on for ever, or reads a name past the block. */
  datatype Verdict = Verdict(err: int) | Unending | Outside

  /** The walk of fdt_check_full as it is computed, for at most `fuel` tags. */
  function CheckWalk32(s: seq<byte>, t: seq<byte>, pos: nat, depth: nat, fuel: nat): Verdict
    decreases fuel
  {
    hide U32, NulFrom, NextTag32;
    var k := NextTag32(s, pos);
    if fuel == 0 then Unending
    else if k.next < 0 then Verdict(k.next)
    else if k.tag == NOP then CheckWalk32(s, t, k.next, depth, fuel - 1)
    else if k.tag == END then Verdict(if depth != 0 then -BADSTRUCTURE else 0)
    else if k.tag == BEGIN_NODE then CheckWalk32(s, t, k.next, depth + 1, fuel - 1)
    else if k.tag == END_NODE then (if depth == 0 then Verdict(-BADSTRUCTURE) else CheckWalk32(s, t, k.next, depth - 1, fuel - 1))
    else if pos % 4 != 0 then Verdict(-BADOFFSET)
    else if pos + 12 > |s| then Outside
    else if StringAt(t, U32(s, pos + 8)).None? then Verdict(StringError(t, U32(s, pos + 8)))
    else CheckWalk32(s, t, k.next, depth, fuel - 1)
  }

  /** The walk from `pos` meets no wrapping length. */
  predicate Unwrapped(s: seq<byte>, t: seq<byte>, pos: nat, depth: nat)
    decreases |s| - pos
  {
    hide U32, NulFrom, NextTag, Wraps;
    NextTagFacts(s, pos);
    var k := NextTag(s, pos);
    && !Wraps(s, pos)
    && (k.tag == END ||
        (k.tag == END_NODE && depth == 0) ||
        (k.tag == PROP && (CheckPropOffset(s, pos) < 0 || StringAt(t, U32(s, pos + 8)).None?)) ||
        Unwrapped(s, t, k.next, if k.tag == BEGIN_NODE then depth + 1 else if k.tag == END_NODE then depth - 1 else depth))
  }

  /** Without wrapping lengths the walk is the one in exact integers. */
  lemma {:induction false} WalkExact(s: seq<byte>, t: seq<byte>, pos: nat, depth: nat, fuel: nat)
    requires |s| < WORD && Unwrapped(s, t, pos, depth) && fuel > 0 && pos + 4 * fuel > |s|
    ensures CheckWalk32(s, t, pos, depth, fuel) == Verdict(CheckWalk(s, t, pos, depth))
    decreases fuel
  {
    hide U32, NulFrom, NextTag, NextTag32, Wraps, StringAt, StringError;
    NextTagFacts(s, pos);
    NextTagExact(s, pos);
    var k := NextTag(s, pos);
    if k.tag != END {
      var d := if k.tag == BEGIN_NODE then depth + 1 else if k.tag == END_NODE then depth - 1 else depth;
      if d >= 0 && Unwrapped(s, t, k.next, d) && fuel > 1 {
        WalkExact(s, t, k.next, d, fuel - 1);
      }
    }
  }

  /** A walk in exact integers that accepts meets no wrapping length. */
  lemma {:induction false} AcceptedUnwrapped(s: seq<byte>, t: seq<byte>, pos: nat, depth: nat)
    requires |s| < WORD && CheckWalk(s, t, pos, depth) == 0
    ensures Unwrapped(s, t, pos, depth)
    decreases |s| - pos
  {
    hide U32, NulFrom, NextTag, Wraps, StringAt;
    NextTagFacts(s, pos);
    NextTagExact(s, pos);
    var k := NextTag(s, pos);
    if k.tag != END {
      AcceptedUnwrapped(s, t, k.next, if k.tag == BEGIN_NODE then depth + 1 else if k.tag == END_NODE then depth - 1 else depth);
    }
  }

  // ---------------------------------------------------------------- the verdict

  /** fdt_check_full as it is computed. */
  function CheckFull32(b: Blob, bufsize: nat, fuel: nat): Verdict
    requires b.total <= |b.buf| && b.total != INT_MAX
  {
    if bufsize < 28 then Verdict(-TRUNCATED)
    else if CheckHeader(b) != 0 then Verdict(CheckHeader(b))
    else if bufsize < b.total then Verdict(-TRUNCATED)
    else if NumMemRsv(b, 0) < 0 then Verdict(NumMemRsv(b, 0))
    else CheckWalk32(Struct(b), Strings(b), 0, 0, fuel)
  }

  /** The header is in order, the reservation list ends, and the structure block is a
      balanced, fully named token sequence. */
  ghost predicate WellFormed(b: Blob, bufsize: nat)
    requires b.total <= |b.buf|
  {
    && CheckHeader(b) == 0 && b.total <= bufsize && NumMemRsv(b, 0) >= 0
    && exists k :: Holds(Struct(b), k) && Named(Items(k, Strings(b))) && Balanced(Items(k, Strings(b)), 0)
  }

  /** In exact integers: accepted if and only if well-formed. */
  lemma ExactVerdict(b: Blob, bufsize: nat) returns (toks: seq<Token>)
    requires b.total <= |b.buf| && b.total != INT_MAX
    ensures CheckFull(b, bufsize) == 0 ==> Holds(Struct(b), toks)
    ensures CheckFull(b, bufsize) == 0 <==> WellFormed(b, bufsize)
  {
    hide CheckWalk, NumMemRsv, Holds, Named, Balanced, Struct, Strings;
    toks := [];
    var s, t := Struct(b), Strings(b);
    if CheckFull(b, bufsize) == 0 {
      toks := Parse(s, t, 0, 0);
      HoldsIs(s, toks);
      WalkVerdict(s, t, toks, toks, 0);
      assert At(toks, toks) == 0;
    }
    forall k | Holds(s, k) && Named(Items(k, t)) && Balanced(Items(k, t), 0)
      ensures CheckWalk(s, t, 0, 0) == 0
    {
      WalkVerdict(s, t, k, k, 0);
      assert At(k, k) == 0;
    }
  }

  /** fdt_check_full accepts every well-formed blob, and a blob that it accepts is
      well-formed if and only if its walk meets no wrapping length. */
  lemma CheckFullTheorem(b: Blob, bufsize: nat, fuel: nat) returns (toks: seq<Token>)
    requires b.total <= |b.buf| && b.total < INT_MAX && 4 * fuel > b.total
    ensures WellFormed(b, bufsize) ==> CheckFull32(b, bufsize, fuel) == Verdict(0) && Holds(Struct(b), toks)
    ensures CheckFull32(b, bufsize, fuel) == Verdict(0) ==>
      (WellFormed(b, bufsize) <==> Unwrapped(Struct(b), Strings(b), 0, 0))
  {
    hide CheckWalk, CheckWalk32, NumMemRsv, Holds, WellFormed, Unwrapped, Struct, Strings;
    toks := ExactVerdict(b, bufsize);
    var s, t := Struct(b), Strings(b);
    BlockShort(b);
    if CheckFull(b, bufsize) == 0 {
      AcceptedUnwrapped(s, t, 0, 0);
    }
    if Unwrapped(s, t, 0, 0) {
      WalkExact(s, t, 0, 0, fuel);
    }
  }

  lemma BlockShort(b: Blob)
    requires b.total <= |b.buf|
    ensures |Struct(b)| <= b.total
  {
  }

  /** A block that is accepted and is no token sequence: one property of length -4, whose
      name offset is read again as a no-op. */
  predicate Shortcut(s: seq<byte>, t: seq<byte>) {
    && |s| == 28 && U32(s, 0) == BEGIN_NODE && s[4] == 0
    && U32(s, 8) == PROP && U32(s, 12) == 0xffff_fffc && U32(s, 16) == NOP
    && U32(s, 20) == END_NODE && U32(s, 24) == END && StringAt(t, 4).Some?
  }

  lemma ShortcutAccepted(s: seq<byte>, t: seq<byte>, fuel: nat)
    requires Shortcut(s, t) && fuel >= 5
    ensures CheckWalk32(s, t, 0, 0, fuel) == Verdict(0) && CheckWalk(s, t, 0, 0) != 0 && !Unwrapped(s, t, 0, 0)
  {
    hide U32, NextTag, NulFrom, StringAt, CheckWalk32;
    NulFromIs(s, 4, 4);
    NextTagBegin(s, 0, 0);
    NextTagExact(s, 0);
    NextTagExact(s, 8);
    assert NextTag32(s, 8) == Step(PROP, 16);
    StepsOn(s, 16);
    StepsOn(s, 20);
    StepsOn(s, 24);
    Walk32(s, t, 24, 0, fuel - 4);
    Walk32(s, t, 20, 1, fuel - 3);
    Walk32(s, t, 16, 1, fuel - 2);
    Walk32(s, t, 8, 1, fuel - 1);
    Walk32(s, t, 0, 0, fuel);
    OneStep(s, t, 0, 0);
    OneStep(s, t, 8, 1);
  }

  lemma StepsOn(s: seq<byte>, pos: nat)
    requires pos % 4 == 0 && pos + 4 <= |s| && U32(s, pos) in {NOP, END_NODE, END}
    ensures NextTag32(s, pos) == Step(U32(s, pos), pos + 4)
  {
    hide U32, NulFrom;
  }

  lemma Walk32(s: seq<byte>, t: seq<byte>, pos: nat, depth: nat, fuel: nat)
    requires fuel > 0 && NextTag32(s, pos).next >= 0 && pos % 4 == 0
    ensures var (k, r) := (NextTag32(s, pos), CheckWalk32(s, t, pos, depth, fuel));
      && (k.tag == NOP ==> r == CheckWalk32(s, t, k.next, depth, fuel - 1))
      && (k.tag == END && depth == 0 ==> r == Verdict(0))
      && (k.tag == BEGIN_NODE ==> r == CheckWalk32(s, t, k.next, depth + 1, fuel - 1))
      && (k.tag == END_NODE && depth > 0 ==> r == CheckWalk32(s, t, k.next, depth - 1, fuel - 1))
      && (k.tag == PROP && pos + 12 <= |s| && StringAt(t, U32(s, pos + 8)).Some? ==> r == CheckWalk32(s, t, k.next, depth, fuel - 1))
  {
    hide U32, NextTag32, StringAt;
  }

  lemma OneStep(s: seq<byte>, t: seq<byte>, pos: nat, depth: nat)
    ensures NextTag(s, pos).tag == BEGIN_NODE ==>
      CheckWalk(s, t, pos, depth) == (if NextTag(s, pos).next < 0 then NextTag(s, pos).next else CheckWalk(s, t, NextTag(s, pos).next, depth + 1))
      && (Unwrapped(s, t, pos, depth) ==> Unwrapped(s, t, NextTag(s, pos).next, depth + 1))
    ensures NextTag(s, pos).next < 0 ==> CheckWalk(s, t, pos, depth) == NextTag(s, pos).next
    ensures Unwrapped(s, t, pos, depth) ==> !Wraps(s, pos)
  {
    hide U32, NextTag, NulFrom, StringAt, Wraps;
  }

  lemma WordThere(s: seq<byte>, pre: seq<byte>, v: nat, post: seq<byte>)
    requires v < WORD && s == pre + BE32(v) + post
    ensures |pre| + 4 <= |s| && U32(s, |pre|) == v
  {
    WordInside(pre, v, post);
  }

  lemma FirstWord(s: seq<byte>, v: nat, post: seq<byte>)
    requires v < WORD && s == BE32(v) + post
    ensures U32(s, 0) == v
  {
    assert s == [] + BE32(v) + post;
    WordThere(s, [], v, post);
  }

  /** There are such blocks. */
  lemma ShortcutExists() returns (s: seq<byte>, t: seq<byte>)
    ensures Shortcut(s, t)
  {
    hide U32, BE32, NulFrom;
    var a, z, p, l, n, e, f := BE32(BEGIN_NODE), [0, 0, 0, 0], BE32(PROP), BE32(0xffff_fffc), BE32(NOP), BE32(END_NODE), BE32(END);
    s := a + z + p + l + n + e + f;
    FirstWord(s, BEGIN_NODE, z + p + l + n + e + f);
    WordThere(s, a + z, PROP, l + n + e + f);
    WordThere(s, a + z + p, 0xffff_fffc, n + e + f);
    WordThere(s, a + z + p + l, NOP, e + f);
    WordThere(s, a + z + p + l + n, END_NODE, f);
    WordThere(s, a + z + p + l + n + e, END, []);
    t := [0, 0, 0, 0, 0];
    NulFromIs(t, 4, 4);
  }

  lemma HoldsIs(s: seq<byte>, toks: seq<Token>)
    requires AllOk(toks) && Flat(toks) + BE32(END) <= s[0..]
    ensures Holds(s, toks)
  {
    assert s[0..] == s;
  }
}
