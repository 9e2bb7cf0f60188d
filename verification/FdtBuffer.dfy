/** The flattened tree as the library holds it: a caller's buffer and the header fields
    that describe it, read and written in place. */
module FdtBuffer {
  import opened Bytes
  import opened FdtFormat
  import opened FdtEdit

  /** The bytes at `dst` are those that were at `src`; the rest stay. */
  twostate predicate Copied(a: array<byte>, dst: nat, src: nat, n: nat)
    requires dst + n <= a.Length && src + n <= a.Length
    reads a
  {
    && (forall k :: dst <= k < dst + n ==> a[k] == old(a[k - dst + src]))
    && (forall k :: 0 <= k < a.Length && !(dst <= k < dst + n) ==> a[k] == old(a[k]))
  }

  method CopyForward(a: array<byte>, dst: nat, src: nat, n: nat)
    requires dst <= src && src + n <= a.Length
    modifies a
    ensures Copied(a, dst, src, n)
  {
    for i := 0 to n
      invariant forall k :: dst <= k < dst + i ==> a[k] == old(a[k - dst + src])
      invariant forall k :: 0 <= k < a.Length && !(dst <= k < dst + i) ==> a[k] == old(a[k])
    {
      a[dst + i] := a[src + i];
    }
  }

  method CopyBackward(a: array<byte>, dst: nat, src: nat, n: nat)
    requires src <= dst && dst + n <= a.Length
    modifies a
    ensures Copied(a, dst, src, n)
  {
    for i := n downto 0
      invariant forall k :: dst + i <= k < dst + n ==> a[k] == old(a[k - dst + src])
      invariant forall k :: 0 <= k < a.Length && !(dst + i <= k < dst + n) ==> a[k] == old(a[k])
    {
      a[dst + i] := a[src + i];
    }
  }

  /** memmove: the regions may overlap, so the copy runs away from the overlap. */
  method Memmove(a: array<byte>, dst: nat, src: nat, n: nat)
    requires dst + n <= a.Length && src + n <= a.Length
    modifies a
    ensures a[..] == Moved(old(a[..]), dst, src, n)
  {
    if dst <= src {
      CopyForward(a, dst, src, n);
    } else {
      CopyBackward(a, dst, src, n);
    }
    PutPointwise(old(a[..]), dst, old(a[..])[src..src + n], a[..]);
  }

  /** memcpy from a value into the buffer. */
  method Memcpy(a: array<byte>, at: nat, x: seq<byte>)
    requires at + |x| <= a.Length
    modifies a
    ensures a[..] == Put(old(a[..]), at, x)
  {
    var i := 0;
    while i < |x|
      invariant i <= |x|
      invariant forall k :: at <= k < at + i ==> a[k] == x[k - at]
      invariant forall k :: 0 <= k < a.Length && !(at <= k < at + i) ==> a[k] == old(a[k])
    {
      a[at + i] := x[i];
      i := i + 1;
    }
    PutPointwise(old(a[..]), at, x, a[..]);
  }

  lemma PutPointwise(was: seq<byte>, at: nat, x: seq<byte>, now: seq<byte>)
    requires at + |x| <= |was| == |now|
    requires forall k :: at <= k < at + |x| ==> now[k] == x[k - at]
    requires forall k :: 0 <= k < |was| && !(at <= k < at + |x|) ==> now[k] == was[k]
    ensures now == Put(was, at, x)
  {
    var r := Put(was, at, x);
    assert forall k :: 0 <= k < |now| ==> now[k] == r[k];
  }

  class Fdt {
    const buf: array<byte>
    var magic: nat
    var total: nat
    var offRsv: nat
    var offStruct: nat
    var sizeStruct: nat
    var offStrings: nat
    var sizeStrings: nat
    /** last_comp_version, which holds the creation flags until fdt_finish. */
    var flags: nat

    ghost function State(): (b: Blob)
      reads this, buf
    {
      Blob(buf[..], magic, total, offRsv, offStruct, sizeStruct, offStrings, sizeStrings)
    }

    constructor (buf: array<byte>, magic: nat, total: nat, offRsv: nat,
                 offStruct: nat, sizeStruct: nat, offStrings: nat, sizeStrings: nat, flags: nat)
      ensures this.buf == buf && this.flags == flags
      ensures State() == Blob(buf[..], magic, total, offRsv, offStruct, sizeStruct, offStrings, sizeStrings)
    {
      this.buf := buf;
      this.magic, this.total, this.offRsv := magic, total, offRsv;
      this.offStruct, this.sizeStruct := offStruct, sizeStruct;
      this.offStrings, this.sizeStrings := offStrings, sizeStrings;
      this.flags := flags;
    }

    /** fdt_offset_ptr: are `len` bytes at `off` inside the structure block? */
    method OffsetPtr(off: int, len: nat) returns (ok: bool)
      requires total <= buf.Length && len > 0
      ensures ok == (off >= 0 && off + len <= |Struct(State())|)
    {
      ok := off >= 0 && offStruct + off + len <= total && off + len <= sizeStruct;
    }

    /** The word at `at` of the buffer. */
    method Word(at: nat) returns (w: nat)
      requires at + 4 <= buf.Length
      ensures w == U32(buf[..], at)
    {
      w := U32(buf[at..at + 4], 0);
    }

    /** The byte and the word at `off` of the structure block. */
    method ByteAt(off: nat) returns (c: byte)
      requires total <= buf.Length && off < |Struct(State())|
      ensures c == Struct(State())[off]
    {
      c := buf[offStruct + off];
    }

    method Load(off: nat) returns (w: nat)
      requires total <= buf.Length && off + 4 <= |Struct(State())|
      ensures w == U32(Struct(State()), off)
    {
      w := U32(buf[offStruct + off..offStruct + off + 4], 0);
    }

    /** A big-endian word stored at `at` of the buffer. */
    method StoreWord(at: nat, v: nat)
      requires at + 4 <= buf.Length && v < WORD
      modifies buf
      ensures buf[..] == Put(old(buf[..]), at, BE32(v))
    {
      Memcpy(buf, at, BE32(v));
    }
  }
}
