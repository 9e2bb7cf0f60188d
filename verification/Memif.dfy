/** Byte-range access over a memory that is only reached in aligned chunks
    (memif.cc), and sparse memory by pages (devices.cc): both are flat byte memory. */
module Memif {
  import opened Bytes

  /** The memory after `bytes` have been put at `addr`. */
  ghost predicate Replaced(was: nat -> byte, now: nat -> byte, addr: nat, bytes: seq<byte>) {
    forall a: nat :: now(a) == if addr <= a < addr + |bytes| then bytes[a - addr] else was(a)
  }

  ghost predicate Holds(mem: nat -> byte, addr: nat, bytes: seq<byte>) {
    forall i :: 0 <= i < |bytes| ==> bytes[i] == mem(addr + i)
  }

  /** Two adjacent replacements are one. */
  lemma ReplacedTwice(m0: nat -> byte, m1: nat -> byte, m2: nat -> byte, addr: nat, x: seq<byte>, y: seq<byte>)
    requires Replaced(m0, m1, addr, x) && Replaced(m1, m2, addr + |x|, y)
    ensures Replaced(m0, m2, addr, x + y)
  {
    forall a: nat ensures m2(a) == if addr <= a < addr + |x + y| then (x + y)[a - addr] else m0(a) {
      assert m1(a) == if addr <= a < addr + |x| then x[a - addr] else m0(a);
    }
  }

  lemma HoldsConcat(mem: nat -> byte, addr: nat, x: seq<byte>, y: seq<byte>)
    requires Holds(mem, addr, x) && Holds(mem, addr + |x|, y)
    ensures Holds(mem, addr, x + y)
  {
  }

  lemma HoldsSlice(mem: nat -> byte, addr: nat, x: seq<byte>, i: nat, j: nat)
    requires Holds(mem, addr, x) && i <= j <= |x|
    ensures Holds(mem, addr + i, x[i..j])
  {
    forall k | 0 <= k < |x[i..j]| ensures x[i..j][k] == mem(addr + i + k) {
      assert x[i + k] == mem(addr + (i + k));
    }
  }

  /** A chunked_memif_t over flat memory: it takes only aligned chunks of bounded length. */
  class Chunks {
    const align: nat
    const maxSize: nat
    var mem: nat -> byte

    ghost predicate Valid()
      reads this
    {
      0 < align && 0 < maxSize && maxSize % align == 0
    }

    constructor (align: nat, maxSize: nat, mem: nat -> byte)
      requires 0 < align && 0 < maxSize && maxSize % align == 0
      ensures Valid() && this.align == align && this.maxSize == maxSize && this.mem == mem
    {
      this.align, this.maxSize, this.mem := align, maxSize, mem;
    }

    ghost predicate Chunk(addr: nat, len: nat)
      requires 0 < align
    {
      addr % align == 0 && len % align == 0 && 0 < len
    }

    method ReadChunk(addr: nat, len: nat) returns (dst: seq<byte>)
      requires Valid() && Chunk(addr, len) && (len == align || len <= maxSize)
      ensures |dst| == len && Holds(mem, addr, dst)
    {
      var m := mem;
      dst := seq(len, i requires i >= 0 => m(addr + i));
    }

    method WriteChunk(addr: nat, len: nat, src: seq<byte>)
      requires Valid() && Chunk(addr, len) && |src| >= len && (len == align || len <= maxSize)
      modifies this`mem
      ensures Valid() && Replaced(old(mem), mem, addr, src[..len])
    {
      var was := mem;
      mem := (a: nat) => if addr <= a < addr + len && a - addr < |src| then src[a - addr] else was(a);
    }

    /** htif_t::clear_chunk. */
    method ClearChunk(addr: nat, len: nat)
      requires Valid() && Chunk(addr, len)
      modifies this`mem
      ensures Valid() && Replaced(old(mem), mem, addr, seq(len, i => 0))
    {
      ghost var was := mem;
      var zeros := seq(maxSize, i => 0 as byte);
      var pos := 0;
      while pos < len
        invariant 0 <= pos <= len && pos % align == 0 && Valid()
        invariant Replaced(was, mem, addr, seq(pos, i => 0 as byte))
      {
        var n := if len - pos < maxSize then len - pos else maxSize;
        Aligned(addr, pos, len, align);
        Aligned(pos, maxSize, len, align);
        ghost var m := mem;
        WriteChunk(addr + pos, n, zeros);
        ReplacedTwice(was, m, mem, addr, seq(pos, i => 0 as byte), zeros[..n]);
        assert seq(pos, i => 0 as byte) + zeros[..n] == seq(pos + n, i => 0 as byte);
        pos := pos + n;
      }
    }
  }

  lemma Aligned(a: nat, b: nat, c: nat, align: nat)
    requires align > 0 && a % align == 0 && b % align == 0 && c % align == 0
    ensures (a + b) % align == 0 && (b <= c ==> (c - b) % align == 0)
  {
    var x, y, z := a / align, b / align, c / align;
    assert a == x * align && b == y * align && c == z * align;
    assert a + b == (x + y) * align;
    MultipleAligned(x + y, align);
    if b <= c {
      assert c - b == (z - y) * align;
      assert z < y ==> (z - y) * align < 0;
      MultipleAligned(z - y, align);
    }
  }

  lemma {:induction false} MultipleAligned(k: nat, align: nat)
    requires align > 0
    ensures (k * align) % align == 0
  {
    var x := k * align;
    var q := x / align;
    assert x == q * align + x % align;
    assert q > k ==> q * align >= (k + 1) * align;
    assert q < k ==> (q + 1) * align <= k * align;
  }

  lemma RoundDown(a: nat, align: nat)
    requires align > 0
    ensures (a - a % align) % align == 0 && a - a % align >= 0
    ensures a % align > 0 ==> (a + (align - a % align)) % align == 0
  {
    var q := a / align;
    assert a - a % align == q * align;
    MultipleAligned(q, align);
    assert a + (align - a % align) == (q + 1) * align;
    MultipleAligned(q + 1, align);
  }

  function Min(a: nat, b: nat): nat {
    if a < b then a else b
  }

  class Memif {
    const cmemif: Chunks

    constructor (cmemif: Chunks)
      ensures this.cmemif == cmemif
    {
      this.cmemif := cmemif;
    }

    /** memif_t::read: exactly the bytes at `addr`, and no byte changes. */
    method Read(addr0: nat, len0: nat) returns (bytes: seq<byte>)
      requires cmemif.Valid()
      ensures |bytes| == len0 && Holds(cmemif.mem, addr0, bytes)
    {
      var align := cmemif.align;
      var addr, len := addr0, len0;
      bytes := [];
      RoundDown(addr, align);
      if len > 0 && addr % align != 0 {
        var n := Min(len, align - addr % align);
        SelfAligned(align);
        var chunk := cmemif.ReadChunk(addr - addr % align, align);
        HoldsSlice(cmemif.mem, addr - addr % align, chunk, addr % align, addr % align + n);
        bytes := chunk[addr % align..addr % align + n];
        addr := addr + n;
        len := len - n;
      }
      var tail := [];
      if len % align != 0 {
        var n := len % align;
        var start := len - n;
        RoundDown(len, align);
        SelfAligned(align);
        Aligned(addr, start, start, align);
        var chunk := cmemif.ReadChunk(addr + start, align);
        HoldsSlice(cmemif.mem, addr + start, chunk, 0, n);
        tail := chunk[..n];
        len := len - n;
      }
      RoundDown(len, align);
      var middle := ReadWhole(addr, len);
      HoldsConcat(cmemif.mem, addr0, bytes, middle);
      HoldsConcat(cmemif.mem, addr0, bytes + middle, tail);
      bytes := bytes + middle + tail;
    }

    /** The aligned part, chunk by chunk. */
    method ReadWhole(addr: nat, len: nat) returns (bytes: seq<byte>)
      requires cmemif.Valid() && (len > 0 ==> cmemif.Chunk(addr, len))
      ensures |bytes| == len && Holds(cmemif.mem, addr, bytes)
    {
      var align := cmemif.align;
      bytes := [];
      MultipleAligned(0, align);
      while |bytes| < len
        invariant |bytes| <= len && |bytes| % align == 0 && Holds(cmemif.mem, addr, bytes)
      {
        var pos := |bytes|;
        var n := Min(cmemif.maxSize, len - pos);
        Aligned(addr, pos, len, align);
        Aligned(pos, cmemif.maxSize, len, align);
        var chunk := cmemif.ReadChunk(addr + pos, n);
        HoldsConcat(cmemif.mem, addr, bytes, chunk);
        bytes := bytes + chunk;
      }
    }

    /** memif_t::write: exactly the bytes at `addr` are replaced. */
    method Write(addr0: nat, bytes: seq<byte>)
      requires cmemif.Valid()
      modifies cmemif`mem
      ensures cmemif.Valid() && Replaced(old(cmemif.mem), cmemif.mem, addr0, bytes)
    {
      hide Replaced;
      var align := cmemif.align;
      var addr, from, len := addr0, 0, |bytes|;
      ghost var m0 := cmemif.mem;
      NothingReplaced(m0, addr0);
      RoundDown(addr, align);
      if len > 0 && addr % align != 0 {
        var n := Min(len, align - addr % align);
        SelfAligned(align);
        var base := addr - addr % align;
        Patch(base, addr % align, bytes[..n]);
        addr := addr + n;
        from := n;
        len := len - n;
      }
      ghost var m1 := cmemif.mem;
      NothingReplaced(m1, addr + len);
      ghost var whole := len - len % align;
      if len % align != 0 {
        var n := len % align;
        var start := len - n;
        RoundDown(len, align);
        SelfAligned(align);
        Aligned(addr, start, start, align);
        Patch(addr + start, 0, bytes[from + start..]);
        len := len - n;
      }
      RoundDown(len, align);
      ghost var m2 := cmemif.mem;
      assert bytes[..0] == [] && bytes[|bytes|..] == [];
      WriteWhole(addr, bytes[from..from + len]);
      Assemble(m0, m1, m2, cmemif.mem, addr0, bytes, from, len);
    }

    /** One aligned chunk read, changed in part and written back. */
    method Patch(base: nat, at: nat, x: seq<byte>)
      requires cmemif.Valid() && cmemif.Chunk(base, cmemif.align) && at + |x| <= cmemif.align
      modifies cmemif`mem
      ensures cmemif.Valid() && Replaced(old(cmemif.mem), cmemif.mem, base + at, x)
    {
      var align := cmemif.align;
      ghost var was := cmemif.mem;
      var chunk := cmemif.ReadChunk(base, align);
      var patched := chunk[..at] + x + chunk[at + |x|..];
      cmemif.WriteChunk(base, align, patched);
      assert patched[..align] == patched;
      forall a: nat ensures cmemif.mem(a) == if base + at <= a < base + at + |x| then x[a - (base + at)] else was(a) {
        if base <= a < base + align {
          assert chunk[a - base] == was(base + (a - base));
        }
      }
    }

    /** The aligned part: cleared if it is all zeros, else written chunk by chunk. */
    method WriteWhole(addr: nat, x: seq<byte>)
      requires cmemif.Valid() && (x != [] ==> cmemif.Chunk(addr, |x|))
      modifies cmemif`mem
      ensures cmemif.Valid() && Replaced(old(cmemif.mem), cmemif.mem, addr, x)
    {
      ghost var was := cmemif.mem;
      var align, maxChunk, len := cmemif.align, cmemif.maxSize, |x|;
      var allZero := len != 0;
      for i := 0 to len
        invariant allZero <==> len != 0 && forall k :: 0 <= k < i ==> x[k] == 0
      {
        allZero := allZero && x[i] == 0;
      }
      if allZero {
        assert x == seq(len, i => 0);
        cmemif.ClearChunk(addr, len);
      } else {
        var pos := 0;
        MultipleAligned(0, align);
        while pos < len
          invariant 0 <= pos <= len && pos % align == 0 && cmemif.Valid()
          invariant Replaced(was, cmemif.mem, addr, x[..pos])
        {
          var n := Min(maxChunk, len - pos);
          Aligned(addr, pos, len, align);
          Aligned(pos, maxChunk, len, align);
          ghost var m := cmemif.mem;
          cmemif.WriteChunk(addr + pos, n, x[pos..]);
          ReplacedTwice(was, m, cmemif.mem, addr, x[..pos], x[pos..][..n]);
          assert x[..pos] + x[pos..][..n] == x[..pos + n];
          pos := pos + n;
        }
        assert x[..len] == x;
      }
    }
  }

  lemma SelfAligned(align: nat)
    requires align > 0
    ensures align % align == 0
  {
    MultipleAligned(1, align);
  }

  /** Head, tail and middle written in this order are the whole range. */
  lemma NothingReplaced(m: nat -> byte, addr: nat)
    ensures Replaced(m, m, addr, [])
  {
  }

  lemma Assemble(m0: nat -> byte, m1: nat -> byte, m2: nat -> byte, m3: nat -> byte, addr: nat, bytes: seq<byte>, from: nat, len: nat)
    requires from + len <= |bytes|
    requires Replaced(m0, m1, addr, bytes[..from])
    requires Replaced(m1, m2, addr + from + len, bytes[from + len..])
    requires Replaced(m2, m3, addr + from, bytes[from..from + len])
    ensures Replaced(m0, m3, addr, bytes)
  {
    forall a: nat ensures m3(a) == if addr <= a < addr + |bytes| then bytes[a - addr] else m0(a) {
      assert m1(a) == if addr <= a < addr + from then bytes[..from][a - addr] else m0(a);
      assert m2(a) == if addr + from + len <= a < addr + |bytes| then bytes[from + len..][a - addr - from - len] else m1(a);
    }
  }

  // ---------------------------------------------------------------- sparse memory

  const PGSIZE: nat := 4096

  /** mem_t: pages come into being, cleared, when they are first touched. */
  class Mem {
    const sz: nat
    var sparse: map<nat, seq<byte>>

    ghost predicate Valid()
      reads this
    {
      forall p :: p in sparse ==> |sparse[p]| == PGSIZE
    }

    /** The flat memory that the pages stand for. */
    ghost function Flat(): (f: nat -> byte)
      reads this
      requires Valid()
    {
      var s := sparse;
      (a: nat) => if a / PGSIZE in s && a % PGSIZE < |s[a / PGSIZE]| then s[a / PGSIZE][a % PGSIZE] else 0
    }

    constructor (size: nat)
      requires size > 0 && size % PGSIZE == 0
      ensures Valid() && sz == size && forall a: nat :: Flat()(a) == 0
    {
      sz := size;
      sparse := map[];
    }

    /** contents: the page of an address. */
    method Contents(addr: nat) returns (page: seq<byte>)
      requires Valid()
      modifies this`sparse
      ensures Valid() && addr / PGSIZE in sparse && page == sparse[addr / PGSIZE] && |page| == PGSIZE
      ensures forall a: nat :: Flat()(a) == old(Flat())(a)
    {
      var ppn := addr / PGSIZE;
      if ppn !in sparse {
        sparse := sparse[ppn := seq(PGSIZE, i => 0)];
      }
      page := sparse[ppn];
    }

    /** load_store of a store: in range, exactly the addressed bytes are replaced. */
    method Store(addr0: nat, bytes: seq<byte>) returns (ok: bool)
      requires Valid()
      modifies this`sparse
      ensures Valid() && ok == (addr0 + |bytes| <= sz)
      ensures if ok then Replaced(old(Flat()), Flat(), addr0, bytes) else sparse == old(sparse)
    {
      if addr0 + |bytes| > sz {
        return false;
      }
      ghost var was := Flat();
      var addr, pos := addr0, 0;
      while pos < |bytes|
        invariant Valid() && 0 <= pos <= |bytes| && addr == addr0 + pos
        invariant Replaced(was, Flat(), addr0, bytes[..pos])
      {
        var n := Min(PGSIZE - addr % PGSIZE, |bytes| - pos);
        ghost var m := Flat();
        StorePage(addr, bytes[pos..pos + n]);
        ReplacedTwice(was, m, Flat(), addr0, bytes[..pos], bytes[pos..pos + n]);
        assert bytes[..pos] + bytes[pos..pos + n] == bytes[..pos + n];
        addr := addr + n;
        pos := pos + n;
      }
      assert bytes[..|bytes|] == bytes;
      return true;
    }

    /** memcpy into one page. */
    method StorePage(addr: nat, x: seq<byte>)
      requires Valid() && addr % PGSIZE + |x| <= PGSIZE
      modifies this`sparse
      ensures Valid() && Replaced(old(Flat()), Flat(), addr, x)
    {
      ghost var was := Flat();
      var page := Contents(addr);
      ghost var mid := Flat();
      var off := addr % PGSIZE;
      sparse := sparse[addr / PGSIZE := page[..off] + x + page[off + |x|..]];
      forall a: nat ensures Flat()(a) == if addr <= a < addr + |x| then x[a - addr] else was(a) {
        SamePage(addr, a);
        assert mid(a) == was(a);
      }
    }

    /** load_store of a load: in range, exactly the addressed bytes; the flat memory stays. */
    method Load(addr0: nat, len: nat) returns (ok: bool, bytes: seq<byte>)
      requires Valid()
      modifies this`sparse
      ensures Valid() && ok == (addr0 + len <= sz) && forall a: nat :: Flat()(a) == old(Flat())(a)
      ensures ok ==> |bytes| == len && Holds(Flat(), addr0, bytes)
    {
      bytes := [];
      if addr0 + len > sz {
        return false, [];
      }
      ghost var was := Flat();
      var addr := addr0;
      while |bytes| < len
        invariant Valid() && |bytes| <= len && addr == addr0 + |bytes|
        invariant (forall a: nat :: Flat()(a) == was(a)) && Holds(was, addr0, bytes)
      {
        var n := Min(PGSIZE - addr % PGSIZE, len - |bytes|);
        var page := Contents(addr);
        var off := addr % PGSIZE;
        var part := page[off..off + n];
        forall i | 0 <= i < |part| ensures part[i] == was(addr + i) {
          SamePage(addr, addr + i);
          assert Flat()(addr + i) == was(addr + i);
        }
        HoldsConcat(was, addr0, bytes, part);
        bytes := bytes + part;
        addr := addr + n;
      }
      return true, bytes;
    }
  }

  /** Where an address is in its page, seen from another one. */
  lemma SamePage(addr: nat, a: nat)
    ensures a / PGSIZE == addr / PGSIZE <==> addr - addr % PGSIZE <= a < addr - addr % PGSIZE + PGSIZE
    ensures a / PGSIZE == addr / PGSIZE ==> a % PGSIZE == addr % PGSIZE + a - addr
  {
  }
}
