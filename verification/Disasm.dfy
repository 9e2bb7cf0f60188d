/** The disassembler's hash index (disasm.cc): it finds an instruction exactly when a
    scan of everything registered would. */
module Disasm {
  import opened Wrappers

  type word = bv64

  const HASH_SIZE: nat := 255
  const MASK1: word := 0x7f
  const MASK2: word := 0xe003

  /** A registered instruction; `id` stands for its name and arguments. */
  datatype Entry = Entry(match32: word, mask: word, id: nat)

  /** disasm_insn_t::operator==. */
  predicate Is(e: Entry, bits: word) {
    bits & e.mask == e.match32
  }

  predicate Covers(e: Entry, mask: word) {
    e.mask & mask == mask
  }

  function Hash(bits: word, mask: word): (h: nat)
    ensures h < HASH_SIZE
  {
    (bits & mask) as nat % HASH_SIZE
  }

  /** The chain that add_insn appends to. */
  function ChainOf(e: Entry): (i: nat)
    ensures i <= HASH_SIZE
  {
    if Covers(e, MASK1) then Hash(e.match32, MASK1)
    else if Covers(e, MASK2) then Hash(e.match32, MASK2)
    else HASH_SIZE
  }

  lemma SameBits(e: Entry, bits: word, mask: word)
    requires Is(e, bits) && Covers(e, mask)
    ensures bits & mask == e.match32 & mask
  {
  }

  /** A matching entry is in one of the three chains that lookup probes. */
  lemma InProbedChain(e: Entry, bits: word)
    requires Is(e, bits)
    ensures ChainOf(e) in {Hash(bits, MASK1), Hash(bits, MASK2), HASH_SIZE}
  {
    hide Is, Covers;
    if Covers(e, MASK1) {
      SameBits(e, bits, MASK1);
    } else if Covers(e, MASK2) {
      SameBits(e, bits, MASK2);
    }
  }

  /** The entries of one chain, in the order given. */
  function Chain(es: seq<Entry>, i: nat): seq<Entry> {
    if es == [] then []
    else Chain(es[..|es| - 1], i) + if ChainOf(es[|es| - 1]) == i then [es[|es| - 1]] else []
  }

  function Reverse(es: seq<Entry>): (r: seq<Entry>)
    ensures |r| == |es|
  {
    if es == [] then [] else Reverse(es[1..]) + [es[0]]
  }

  lemma {:induction false} ReverseAt(es: seq<Entry>, k: nat)
    requires k < |es|
    ensures Reverse(es)[k] == es[|es| - 1 - k]
    decreases |es|
  {
    if k < |es| - 1 {
      ReverseAt(es[1..], k);
    }
  }

  lemma {:induction false} ChainHolds(es: seq<Entry>, e: Entry)
    ensures e in Chain(es, ChainOf(e)) <==> e in es
    decreases |es|
  {
    hide ChainOf;
    if es != [] {
      var n := |es| - 1;
      ChainHolds(es[..n], e);
      assert es == es[..n] + [es[n]];
    }
  }

  lemma {:induction false} ChainOnly(es: seq<Entry>, i: nat, e: Entry)
    requires e in Chain(es, i)
    ensures ChainOf(e) == i && e in es
    decreases |es|
  {
    hide ChainOf;
    var n := |es| - 1;
    if e in Chain(es[..n], i) {
      ChainOnly(es[..n], i, e);
    }
  }

  /** Highest priority first: entries added after construction, the latest first, then
      the constructor's entries in the order they were added. */
  function Priority(builtin: seq<Entry>, custom: seq<Entry>, i: nat): seq<Entry> {
    Reverse(Chain(custom, i)) + Chain(builtin, i)
  }

  /** The first entry that matches. */
  function First(es: seq<Entry>, bits: word): Option<Entry> {
    if es == [] then None else if Is(es[0], bits) then Some(es[0]) else First(es[1..], bits)
  }

  lemma {:induction false} FirstIs(es: seq<Entry>, bits: word)
    ensures match First(es, bits)
      case None => forall k :: 0 <= k < |es| ==> !Is(es[k], bits)
      case Some(e) => exists k :: 0 <= k < |es| && es[k] == e && Is(e, bits) && forall j :: 0 <= j < k ==> !Is(es[j], bits)
    decreases es
  {
    hide Is;
    if es != [] && !Is(es[0], bits) {
      FirstIs(es[1..], bits);
      assert forall k :: 1 <= k < |es| ==> es[k] == es[1..][k - 1];
      if First(es[1..], bits).Some? {
        var k :| 0 <= k < |es[1..]| && es[1..][k] == First(es[1..], bits).value && forall j :: 0 <= j < k ==> !Is(es[1..][j], bits);
        assert es[k + 1] == First(es, bits).value;
      }
    }
  }

  /** lookup: the three chains in turn. */
  function Find(builtin: seq<Entry>, custom: seq<Entry>, bits: word): Option<Entry> {
    var p1 := First(Priority(builtin, custom, Hash(bits, MASK1)), bits);
    if p1.Some? then p1
    else
      var p2 := First(Priority(builtin, custom, Hash(bits, MASK2)), bits);
      if p2.Some? then p2 else First(Priority(builtin, custom, HASH_SIZE), bits)
  }

  lemma {:induction false} ReverseHolds(es: seq<Entry>, e: Entry)
    ensures e in Reverse(es) <==> e in es
    decreases es
  {
    if es != [] {
      ReverseHolds(es[1..], e);
      assert es == [es[0]] + es[1..];
    }
  }

  lemma PriorityHolds(builtin: seq<Entry>, custom: seq<Entry>, e: Entry, i: nat)
    ensures e in Priority(builtin, custom, i) <==> (e in builtin + custom && ChainOf(e) == i)
  {
    hide ChainOf;
    ReverseHolds(Chain(custom, i), e);
    ChainHolds(builtin, e);
    ChainHolds(custom, e);
    if e in Chain(builtin, i) {
      ChainOnly(builtin, i, e);
    }
    if e in Chain(custom, i) {
      ChainOnly(custom, i, e);
    }
  }

  /** lookup returns an entry if and only if some registered entry matches. */
  lemma LookupIffMatch(builtin: seq<Entry>, custom: seq<Entry>, bits: word)
    ensures Find(builtin, custom, bits).Some? <==> exists e :: e in builtin + custom && Is(e, bits)
  {
    hide Is, Hash, ChainOf, Priority;
    var chains := [Hash(bits, MASK1), Hash(bits, MASK2), HASH_SIZE];
    forall i | i in chains ensures First(Priority(builtin, custom, i), bits).Some? <==>
      exists e :: e in builtin + custom && ChainOf(e) == i && Is(e, bits)
    {
      FirstIffMatch(builtin, custom, bits, i);
    }
    if e :| e in builtin + custom && Is(e, bits) {
      InProbedChain(e, bits);
      assert ChainOf(e) in chains;
    }
  }

  lemma FirstIffMatch(builtin: seq<Entry>, custom: seq<Entry>, bits: word, i: nat)
    ensures First(Priority(builtin, custom, i), bits).Some? <==>
      exists e :: e in builtin + custom && ChainOf(e) == i && Is(e, bits)
  {
    hide Is, ChainOf, Priority;
    var es := Priority(builtin, custom, i);
    FirstIs(es, bits);
    if First(es, bits).Some? {
      PriorityHolds(builtin, custom, First(es, bits).value, i);
    }
    if e :| e in builtin + custom && ChainOf(e) == i && Is(e, bits) {
      PriorityHolds(builtin, custom, e, i);
    }
  }

  /** What lookup returns matches, and nothing of higher priority in its chain does. */
  lemma LookupHasPriority(builtin: seq<Entry>, custom: seq<Entry>, bits: word)
    requires Find(builtin, custom, bits).Some?
    ensures var e := Find(builtin, custom, bits).value;
      var es := Priority(builtin, custom, ChainOf(e));
      && Is(e, bits)
      && exists k :: 0 <= k < |es| && es[k] == e && forall j :: 0 <= j < k ==> !Is(es[j], bits)
  {
    hide Is, Hash, ChainOf, Priority;
    var e := Find(builtin, custom, bits).value;
    var i1, i2 := Hash(bits, MASK1), Hash(bits, MASK2);
    var i := if First(Priority(builtin, custom, i1), bits).Some? then i1
      else if First(Priority(builtin, custom, i2), bits).Some? then i2 else HASH_SIZE;
    FirstIs(Priority(builtin, custom, i), bits);
    PriorityHolds(builtin, custom, e, i);
  }

  // ---------------------------------------------------------------- the index

  class Disassembler {
    const chain: array<seq<Entry>>
    ghost var builtin: seq<Entry>
    ghost var custom: seq<Entry>

    /** Chains are searched from the back. */
    ghost predicate Valid()
      reads this, chain
    {
      && chain.Length == HASH_SIZE + 1
      && forall i :: 0 <= i <= HASH_SIZE ==> chain[i] == Reverse(Chain(builtin, i)) + Chain(custom, i)
    }

    /** The constructor: all instructions added, and then every chain reversed. */
    constructor (insns: seq<Entry>)
      ensures Valid() && builtin == insns && custom == [] && fresh(chain)
    {
      chain := new seq<Entry>[HASH_SIZE + 1](_ => []);
      builtin, custom := insns, [];
      new;
      for k := 0 to |insns|
        invariant chain.Length == HASH_SIZE + 1 && fresh(chain) && builtin == insns && custom == []
        invariant forall i :: 0 <= i <= HASH_SIZE ==> chain[i] == Chain(insns[..k], i)
      {
        hide ChainOf;
        assert insns[..k + 1][..k] == insns[..k];
        var idx := ChainOf(insns[k]);
        chain[idx] := chain[idx] + [insns[k]];
      }
      assert insns[..|insns|] == insns;
      for i := 0 to HASH_SIZE + 1
        invariant chain.Length == HASH_SIZE + 1 && fresh(chain) && builtin == insns && custom == []
        invariant forall j :: 0 <= j < i ==> chain[j] == Reverse(Chain(insns, j))
        invariant forall j :: i <= j <= HASH_SIZE ==> chain[j] == Chain(insns, j)
      {
        chain[i] := Reverse(chain[i]);
      }
    }

    /** add_insn. */
    method AddInsn(e: Entry)
      requires Valid()
      modifies this`custom, chain
      ensures Valid() && builtin == old(builtin) && custom == old(custom) + [e]
    {
      hide ChainOf, Reverse;
      var idx := ChainOf(e);
      chain[idx] := chain[idx] + [e];
      custom := custom + [e];
      assert custom[..|custom| - 1] == old(custom);
    }

    /** probe_once: from the back. */
    method ProbeOnce(bits: word, idx: nat) returns (r: Option<Entry>)
      requires Valid() && idx <= HASH_SIZE
      ensures r == First(Priority(builtin, custom, idx), bits)
    {
      hide Is, Chain;
      var es := chain[idx];
      ghost var order := Priority(builtin, custom, idx);
      BackToFront(Chain(builtin, idx), Chain(custom, idx));
      var n := |es|;
      assert order[|es| - n..] == order;
      while n > 0
        invariant 0 <= n <= |es| == |order| && First(order, bits) == First(order[|es| - n..], bits)
      {
        n := n - 1;
        ReverseAt(es, |es| - 1 - n);
        if Is(es[n], bits) {
          return Some(es[n]);
        }
      }
      return None;
    }

    /** lookup. */
    method Lookup(bits: word) returns (r: Option<Entry>)
      requires Valid()
      ensures r == Find(builtin, custom, bits)
    {
      hide Hash, Priority, First;
      r := ProbeOnce(bits, Hash(bits, MASK1));
      if r.Some? {
        return;
      }
      r := ProbeOnce(bits, Hash(bits, MASK2));
      if r.Some? {
        return;
      }
      r := ProbeOnce(bits, HASH_SIZE);
    }
  }

  lemma {:induction false} ReverseConcat(a: seq<Entry>, b: seq<Entry>)
    ensures Reverse(a + b) == Reverse(b) + Reverse(a)
    decreases a
  {
    if a == [] {
      assert a + b == b;
    } else {
      assert (a + b)[1..] == a[1..] + b;
      ReverseConcat(a[1..], b);
    }
  }

  lemma {:induction false} ReverseTwice(a: seq<Entry>)
    ensures Reverse(Reverse(a)) == a
    decreases a
  {
    if a != [] {
      ReverseConcat(Reverse(a[1..]), [a[0]]);
      ReverseTwice(a[1..]);
      assert Reverse([a[0]]) == [a[0]] by {
        assert [a[0]][1..] == [];
      }
    }
  }

  /** Reading a chain from the back is reading it in order of priority. */
  lemma BackToFront(b: seq<Entry>, c: seq<Entry>)
    ensures Reverse(Reverse(b) + c) == Reverse(c) + b
  {
    ReverseConcat(Reverse(b), c);
    ReverseTwice(b);
  }
}
