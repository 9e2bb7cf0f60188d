/** Physical memory protection: the address ranges of pmpaddr_csr_t, on 64-bit words. */
module PmpMatch {
  type reg = bv64

  const PMP_R: bv8 := 0x01
  const PMP_W: bv8 := 0x02
  const PMP_X: bv8 := 0x04
  const PMP_A: bv8 := 0x18
  const PMP_L: bv8 := 0x80
  const PMP_TOR: bv8 := 0x08
  const PMP_NA4: bv8 := 0x10
  const PMP_NAPOT: bv8 := 0x18

  /** An entry: its address register, its configuration and the address register below
      it (0 for entry 0). */
  datatype Entry = Entry(val: reg, cfg: bv8, below: reg)

  function Mode(e: Entry): bv8 {
    e.cfg & PMP_A
  }

  function TorPaddr(val: reg, torMask: reg): reg {
    (val & torMask) << 2
  }

  function NapotMask(val: reg, na4: bool, torMask: reg): reg {
    var mask := (val << 1) | (if na4 then 0 else 1) | !torMask;
    !(mask & !(mask + 1)) << 2
  }

  function EntryMask(e: Entry, torMask: reg): reg {
    NapotMask(e.val, Mode(e) == PMP_NA4, torMask)
  }

  predicate Below(x: reg, y: reg) {
    x < y
  }

  /** The address rounded down to a multiple of the page length. */
  function Down(x: reg, len: reg): reg {
    x & (0 - len)
  }

  /** The bits under the mask in which an address differs from the region's. */
  function Differ(x: reg, tor: reg, mask: reg): reg {
    (x ^ tor) & mask
  }

  /** match4. */
  predicate Match4(e: Entry, torMask: reg, addr: reg) {
    if Mode(e) == 0 then false
    else if Mode(e) == PMP_TOR then
      !Below(addr, TorPaddr(e.below, torMask)) && Below(addr, TorPaddr(e.val, torMask))
    else Differ(addr, TorPaddr(e.val, torMask), EntryMask(e, torMask)) == 0
  }

  predicate TorHomogeneous(base: reg, tor: reg, addr: reg, len: reg) {
    var beginsAfterLower := !Below(addr, base);
    var beginsAfterUpper := !Below(addr, tor);
    var endsBeforeLower := Below(Down(addr, len), Down(base, len));
    var endsBeforeUpper := Below(Down(addr, len), Down(tor, len));
    endsBeforeLower || beginsAfterUpper || (beginsAfterLower && endsBeforeUpper)
  }

  /** The unsigned quotient of `n` by `d` is zero exactly when `n` is below `d`. */
  predicate QuotientIsZero(n: reg, d: reg)
    requires d != 0
  {
    n < d
  }

  /** The region is at least as coarse as the page. */
  predicate Coarse(mask: reg, len: reg) {
    !(mask << 1) & len != 0
  }

  predicate NapotHomogeneous(mask: reg, tor: reg, addr: reg, len: reg)
    requires len != 0
  {
    Coarse(mask, len) || !QuotientIsZero(addr ^ tor, len)
  }

  /** The aligned power-of-two pages that subset_match does not abort on. */
  predicate Page(addr: reg, len: reg) {
    len != 0 && (addr | len) & (len - 1) == 0
  }

  /** subset_match. */
  predicate SubsetMatch(e: Entry, torMask: reg, addr: reg, len: reg)
    requires Page(addr, len)
  {
    var base, tor := TorPaddr(e.below, torMask), TorPaddr(e.val, torMask);
    if Mode(e) == 0 then false
    else if Mode(e) == PMP_TOR then !TorHomogeneous(base, tor, addr, len)
    else !NapotHomogeneous(EntryMask(e, torMask), tor, addr, len)
  }

  /** The addresses of a page. */
  predicate InPage(x: reg, addr: reg, len: reg) {
    Down(x, len) == addr
  }

  // ---------------------------------------------------------------- words with low ones

  predicate LowOnes(l: reg) {
    l & (l + 1) == 0
  }

  predicate Power(len: reg) {
    len != 0 && len & (len - 1) == 0
  }

  lemma PageBits(addr: reg, len: reg)
    requires Page(addr, len)
    ensures LowOnes(len - 1) && InPage(addr, addr, len) && Power(len)
  {
  }

  lemma MaskMono(x: reg, y: reg, l: reg)
    requires LowOnes(l) && x <= y
    ensures x & !l <= y & !l
  {
  }

  lemma DownIs(x: reg, len: reg)
    ensures Down(x, len) == x & !(len - 1)
  {
  }

  lemma DownMono(x: reg, y: reg, len: reg)
    requires LowOnes(len - 1) && !Below(y, x)
    ensures !Below(Down(y, len), Down(x, len))
  {
    hide Down, LowOnes;
    DownIs(x, len);
    DownIs(y, len);
    MaskMono(x, y, len - 1);
  }

  lemma DownIsBelow(x: reg, len: reg)
    ensures !Below(x, Down(x, len))
  {
  }

  /** What rounds down to less is less. */
  lemma DownLess(x: reg, y: reg, addr: reg, len: reg)
    requires Page(addr, len) && Below(Down(x, len), Down(y, len))
    ensures Below(x, y)
  {
    hide Down, Page, LowOnes, Below;
    PageBits(addr, len);
    if !Below(x, y) {
      NotBothBelow(Down(x, len), Down(y, len));
      DownMono(y, x, len);
    }
  }

  /** All but the low byte, and all but the low `n` bytes. */
  function High(x: reg): reg {
    x >> 8
  }

  function Drop(x: reg, n: nat): reg {
    if n == 0 then x else Drop(High(x), n - 1)
  }

  lemma HighOrders(x: reg, y: reg)
    requires Below(High(x), High(y))
    ensures Below(x, y)
  {
  }

  lemma LowOrders(x: reg, y: reg)
    requires High(x) == High(y)
    ensures Below(x, y) || Below(y, x) || x == y
  {
  }

  /** Registers are totally ordered, byte by byte. */
  lemma {:induction false} Ordered(x: reg, y: reg, n: nat)
    requires Drop(x, n) == 0 && Drop(y, n) == 0
    ensures Below(x, y) || Below(y, x) || x == y
    decreases n
  {
    hide High, Below;
    if n > 0 {
      Ordered(High(x), High(y), n - 1);
      if High(x) == High(y) {
        LowOrders(x, y);
      } else if Below(High(x), High(y)) {
        HighOrders(x, y);
      } else {
        HighOrders(y, x);
      }
    }
  }

  lemma EightBytes(x: reg)
    ensures High(High(High(High(High(High(High(High(x)))))))) == 0
  {
  }

  lemma AllDropped(x: reg)
    ensures Drop(x, 8) == 0
  {
    hide High;
    EightBytes(x);
    var y := High(High(High(High(x))));
    assert Drop(x, 8) == Drop(High(High(x)), 6) == Drop(y, 4);
    assert Drop(y, 4) == Drop(High(High(y)), 2) == High(High(High(High(y))));
  }

  lemma NotBothBelow(x: reg, y: reg)
    ensures !(Below(x, y) && Below(y, x))
    ensures !Below(x, y) && !Below(y, x) ==> x == y
  {
    AllDropped(x);
    AllDropped(y);
    Asymmetric(x, y);
    hide Below, Drop;
    Ordered(x, y, 8);
  }

  lemma Asymmetric(x: reg, y: reg)
    ensures !(Below(x, y) && Below(y, x))
  {
  }

  lemma NotBelowTwice(x: reg, y: reg, z: reg)
    requires !Below(x, y) && !Below(y, z)
    ensures !Below(x, z)
  {
  }

  /** The mask of a naturally aligned region clears a run of low bits, at least two. */
  lemma MaskShape(val: reg, na4: bool, torMask: reg)
    ensures var r := !NapotMask(val, na4, torMask); LowOnes(r) && r & 3 == 3
  {
  }

  lemma EntryMaskShape(e: Entry, torMask: reg)
    ensures LowOnes(!EntryMask(e, torMask))
  {
    hide NapotMask;
    MaskShape(e.val, Mode(e) == PMP_NA4, torMask);
  }

  lemma SmallPage(mask: reg, len: reg, y: reg)
    requires Power(len) && LowOnes(!mask) && Coarse(mask, len)
    requires Down(y, len) == 0
    ensures y & mask == 0
  {
  }

  lemma Xors(x: reg, addr: reg, tor: reg, mask: reg, len: reg)
    requires Power(len) && InPage(x, addr, len)
    ensures Down(x ^ addr, len) == 0 && Down((addr ^ tor) ^ (x ^ tor), len) == 0
    ensures (x ^ addr) & mask == 0 ==> Differ(x, tor, mask) == Differ(addr, tor, mask)
  {
  }

  lemma CoarseConstant(mask: reg, tor: reg, addr: reg, len: reg, x: reg)
    requires Power(len) && InPage(x, addr, len) && LowOnes(!mask) && Coarse(mask, len)
    ensures Differ(x, tor, mask) == Differ(addr, tor, mask)
  {
    hide LowOnes, Coarse, Differ, InPage, Power, Down;
    Xors(x, addr, tor, mask, len);
    SmallPage(mask, len, x ^ addr);
  }

  lemma FarConstant(mask: reg, tor: reg, addr: reg, len: reg, x: reg)
    requires Power(len) && InPage(x, addr, len) && LowOnes(!mask) && !Coarse(mask, len)
    requires !QuotientIsZero(addr ^ tor, len)
    ensures Differ(x, tor, mask) != 0 && Differ(addr, tor, mask) != 0
  {
  }

  lemma NapotConstant(mask: reg, tor: reg, addr: reg, len: reg, x: reg)
    requires Page(addr, len) && InPage(x, addr, len) && LowOnes(!mask) && NapotHomogeneous(mask, tor, addr, len)
    ensures Differ(addr, tor, mask) == 0 <==> Differ(x, tor, mask) == 0
  {
    hide LowOnes, Page, InPage, Differ, Coarse, QuotientIsZero, Power;
    PageBits(addr, len);
    if Coarse(mask, len) {
      CoarseConstant(mask, tor, addr, len, x);
    } else {
      FarConstant(mask, tor, addr, len, x);
    }
  }

  /** An address of the page outside a region that lies in the page. */
  function Neighbour(mask: reg, tor: reg): reg {
    tor ^ (!mask + 1)
  }

  lemma NapotMixed(mask: reg, tor: reg, addr: reg, len: reg)
    requires Page(addr, len) && LowOnes(!mask) && !NapotHomogeneous(mask, tor, addr, len)
    ensures InPage(tor, addr, len) && InPage(Neighbour(mask, tor), addr, len)
    ensures Differ(tor, tor, mask) == 0 && Differ(Neighbour(mask, tor), tor, mask) != 0
  {
  }

  lemma TorConstant(base: reg, tor: reg, addr: reg, len: reg, x: reg)
    requires Page(addr, len) && InPage(x, addr, len) && TorHomogeneous(base, tor, addr, len)
    ensures !Below(addr, base) && Below(addr, tor) <==> !Below(x, base) && Below(x, tor)
  {
    hide Page, Down, Below, LowOnes;
    PageBits(addr, len);
    DownIsBelow(x, len);
    if Below(Down(addr, len), Down(base, len)) {
      DownLess(x, base, addr, len);
      DownLess(addr, base, addr, len);
    } else if !Below(addr, tor) {
      NotBelowTwice(x, addr, tor);
    } else {
      DownLess(x, tor, addr, len);
      NotBelowTwice(x, addr, base);
    }
  }

  /** The bound of the range that falls inside the page. */
  lemma TorMixed(base: reg, tor: reg, addr: reg, len: reg)
    requires Page(addr, len) && !TorHomogeneous(base, tor, addr, len) && Below(base, tor)
    ensures var y := if Below(addr, base) then base else tor;
      InPage(y, addr, len) && (!Below(addr, base) && Below(addr, tor)) != (!Below(y, base) && Below(y, tor))
  {
    hide Page, LowOnes, Down, Below;
    PageBits(addr, len);
    Irreflexive(base);
    Irreflexive(tor);
    var y := if Below(addr, base) then base else tor;
    Between(addr, y, len);
  }

  lemma Irreflexive(x: reg)
    ensures !Below(x, x)
  {
  }

  lemma Between(addr: reg, y: reg, len: reg)
    requires LowOnes(len - 1) && Below(addr, y) && !Below(Down(addr, len), Down(y, len))
    ensures Down(addr, len) == Down(y, len)
  {
    hide LowOnes, Down, Below;
    NotBothBelow(addr, y);
    NotBothBelow(Down(addr, len), Down(y, len));
    DownMono(addr, y, len);
  }

  // ---------------------------------------------------------------- subset_match

  /** Every address of the page matches, or none does. */
  ghost predicate Constant(e: Entry, torMask: reg, addr: reg, len: reg) {
    forall x, y :: InPage(x, addr, len) && InPage(y, addr, len) ==> Match4(e, torMask, x) == Match4(e, torMask, y)
  }

  /** When subset_match says no, the whole page is inside the entry's range or outside it. */
  lemma NoSubsetMeansConstant(e: Entry, torMask: reg, addr: reg, len: reg)
    requires Page(addr, len) && !SubsetMatch(e, torMask, addr, len)
    ensures Constant(e, torMask, addr, len)
  {
    forall x, y | InPage(x, addr, len) && InPage(y, addr, len)
      ensures Match4(e, torMask, x) == Match4(e, torMask, y)
    {
      SameAsFirst(e, torMask, addr, len, x);
      SameAsFirst(e, torMask, addr, len, y);
    }
  }

  lemma SameAsFirst(e: Entry, torMask: reg, addr: reg, len: reg, x: reg)
    requires Page(addr, len) && InPage(x, addr, len) && !SubsetMatch(e, torMask, addr, len)
    ensures Match4(e, torMask, x) == Match4(e, torMask, addr)
  {
    hide EntryMask, TorHomogeneous, NapotHomogeneous, TorPaddr, InPage, Page, LowOnes, Below, Differ;
    var base, tor := TorPaddr(e.below, torMask), TorPaddr(e.val, torMask);
    if Mode(e) == PMP_TOR {
      TorConstant(base, tor, addr, len, x);
    } else if Mode(e) != 0 {
      EntryMaskShape(e, torMask);
      NapotConstant(EntryMask(e, torMask), tor, addr, len, x);
    }
  }

  /** subset_match says yes exactly on the pages that straddle a bound of the range, for
      every entry but a top-of-range one whose base is not below its top. */
  lemma SubsetIffMixed(e: Entry, torMask: reg, addr: reg, len: reg)
    requires Page(addr, len)
    requires Mode(e) == PMP_TOR ==> Below(TorPaddr(e.below, torMask), TorPaddr(e.val, torMask))
    ensures SubsetMatch(e, torMask, addr, len) <==> !Constant(e, torMask, addr, len)
  {
    hide EntryMask, TorHomogeneous, NapotHomogeneous, TorPaddr, Page, LowOnes, Match4;
    if SubsetMatch(e, torMask, addr, len) {
      var y := Straddles(e, torMask, addr, len);
    } else {
      NoSubsetMeansConstant(e, torMask, addr, len);
    }
  }

  lemma Straddles(e: Entry, torMask: reg, addr: reg, len: reg) returns (y: reg)
    requires Page(addr, len) && SubsetMatch(e, torMask, addr, len)
    requires Mode(e) == PMP_TOR ==> Below(TorPaddr(e.below, torMask), TorPaddr(e.val, torMask))
    ensures !Constant(e, torMask, addr, len)
  {
    hide EntryMask, TorHomogeneous, NapotHomogeneous, TorPaddr, Page, LowOnes, InPage, Below, Differ, Neighbour;
    var base, tor := TorPaddr(e.below, torMask), TorPaddr(e.val, torMask);
    PageBits(addr, len);
    if Mode(e) == PMP_TOR {
      TorMixed(base, tor, addr, len);
      y := if Below(addr, base) then base else tor;
      assert Match4(e, torMask, addr) != Match4(e, torMask, y);
    } else {
      var mask := EntryMask(e, torMask);
      EntryMaskShape(e, torMask);
      NapotMixed(mask, tor, addr, len);
      y := Neighbour(mask, tor);
      assert Match4(e, torMask, tor) != Match4(e, torMask, y);
    }
  }

  /** An empty top-of-range entry matches nothing. */
  lemma EmptyRange(e: Entry, torMask: reg, addr: reg, len: reg)
    requires Page(addr, len) && Mode(e) == PMP_TOR && !Below(TorPaddr(e.below, torMask), TorPaddr(e.val, torMask))
    ensures Constant(e, torMask, addr, len)
  {
    hide TorPaddr, Page, InPage, Below;
    forall x ensures !Match4(e, torMask, x) {
      if !Below(x, TorPaddr(e.below, torMask)) {
        NotBelowTwice(x, TorPaddr(e.below, torMask), TorPaddr(e.val, torMask));
      }
    }
  }

  /** Yet subset_match calls the page mixed that the base of such an entry is in, unless
      the page starts at or after the top. */
  lemma EmptyRangeVerdict(e: Entry, torMask: reg, addr: reg, len: reg)
    requires Page(addr, len) && Mode(e) == PMP_TOR && !Below(TorPaddr(e.below, torMask), TorPaddr(e.val, torMask))
    ensures var (base, tor) := (TorPaddr(e.below, torMask), TorPaddr(e.val, torMask));
      SubsetMatch(e, torMask, addr, len) <==> InPage(base, addr, len) && Below(addr, tor)
  {
    hide TorPaddr, Page, Below, LowOnes, Down;
    PageBits(addr, len);
    var base, tor := TorPaddr(e.below, torMask), TorPaddr(e.val, torMask);
    if Below(addr, tor) {
      BelowThrough(addr, tor, base);
      NotBothBelow(addr, base);
      DownMono(addr, base, len);
      NotBothBelow(Down(addr, len), Down(base, len));
    }
  }

  lemma BelowThrough(x: reg, y: reg, z: reg)
    requires Below(x, y) && !Below(z, y)
    ensures Below(x, z)
  {
    hide Below;
    if !Below(x, z) {
      NotBelowTwice(x, z, y);
    }
  }

  /** Exactly when subset_match tells the mixed pages from the constant ones: always, but
      for an empty top-of-range entry and the page of its base below its top. */
  lemma SubsetExact(e: Entry, torMask: reg, addr: reg, len: reg)
    requires Page(addr, len)
    ensures var (base, tor) := (TorPaddr(e.below, torMask), TorPaddr(e.val, torMask));
      (SubsetMatch(e, torMask, addr, len) <==> !Constant(e, torMask, addr, len))
      <==> (Mode(e) != PMP_TOR || Below(base, tor) || !(InPage(base, addr, len) && Below(addr, tor)))
  {
    hide TorPaddr, Page, Below, SubsetMatch, InPage, Constant;
    var base, tor := TorPaddr(e.below, torMask), TorPaddr(e.val, torMask);
    if Mode(e) != PMP_TOR || Below(base, tor) {
      SubsetIffMixed(e, torMask, addr, len);
    } else {
      EmptyRange(e, torMask, addr, len);
      EmptyRangeVerdict(e, torMask, addr, len);
    }
  }

  /** Yet subset_match can call a page mixed for such an entry. */
  lemma EmptyRangeCalledMixed()
    ensures var e := Entry(0x410, PMP_TOR, 0x420);
      Page(0x1000, 0x1000) && SubsetMatch(e, 0xffff_ffff_ffff_ffff, 0x1000, 0x1000)
  {
    assert TorPaddr(0x410, 0xffff_ffff_ffff_ffff) == 0x1040;
    assert TorPaddr(0x420, 0xffff_ffff_ffff_ffff) == 0x1080;
  }
}
