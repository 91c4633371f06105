/**
 Bit-field access to operation regions and to buffers.  Machine words and bytes are bit sequences, least
 significant bit first, so that shifting, masking and or-ing are what they are in C.  A region is
 memory-like: reading an access unit returns the bytes last written to it, little endian.
 */
module Bits {

  type Byte = s: seq<bool> | |s| == 8 witness [false, false, false, false, false, false, false, false]
  type Word = s: seq<bool> | |s| == 64 witness seq(64, _ => false)

  const ZERO: Word := seq(64, _ => false)
  const ONES: Word := seq(64, _ => true)

  function Shr(w: Word, k: nat): Word { seq(64, i requires 0 <= i < 64 => i + k < 64 && w[i + k]) }
  function Shl(w: Word, k: nat): Word { seq(64, i requires 0 <= i < 64 => i >= k && w[i - k]) }
  function And(a: Word, b: Word): Word { seq(64, i requires 0 <= i < 64 => a[i] && b[i]) }
  function Or(a: Word, b: Word): Word { seq(64, i requires 0 <= i < 64 => a[i] || b[i]) }
  function Not(a: Word): Word { seq(64, i requires 0 <= i < 64 => !a[i]) }

  /** (1 << n) - 1; a shift by 64 is undefined in C. */
  function Mask(n: nat): Word
    requires n < 64
  {
    seq(64, i => i < n)
  }

  function Low(w: Word): Byte { w[..8] }
  function Widen(b: Byte): Word { seq(64, i requires 0 <= i < 64 => i < 8 && b[i]) }
  function OrByte(a: Byte, b: Byte): Byte { seq(8, i requires 0 <= i < 8 => a[i] || b[i]) }
  function AndByte(a: Byte, b: Byte): Byte { seq(8, i requires 0 <= i < 8 => a[i] && b[i]) }
  function NotByte(a: Byte): Byte { seq(8, i requires 0 <= i < 8 => !a[i]) }

  /** Bit `p` of a sequence of bytes. */
  function Bit(bytes: seq<Byte>, p: nat): bool
    requires p < 8 * |bytes|
  {
    bytes[p / 8][p % 8]
  }

  function Min(a: int, b: int): int { if a < b then a else b }

  /** lai_buffer_put_at: or the low bits of a value into a buffer. */
  method PutAt(buffer: array<Byte>, value: Word, off: nat, n: nat)
    requires off + n <= 8 * buffer.Length && n <= 64
    modifies buffer
    ensures forall p :: 0 <= p < 8 * buffer.Length ==>
              Bit(buffer[..], p) == (old(Bit(buffer[..], p)) || (off <= p < off + n && value[p - off]))
  {
    var progress := 0;
    while progress < n
      invariant 0 <= progress <= n
      invariant forall p :: 0 <= p < 8 * buffer.Length ==>
                  Bit(buffer[..], p) == (old(Bit(buffer[..], p)) || (off <= p < off + progress && value[p - off]))
    {
      var inByte := (off + progress) % 8;
      var access := Min(n - progress, 8 - inByte);
      var piece := Low(Shl(And(Shr(value, progress), Mask(access)), inByte));
      var b := (off + progress) / 8;
      ghost var before := buffer[..];
      buffer[b] := OrByte(buffer[b], piece);
      forall p | 0 <= p < 8 * buffer.Length
        ensures Bit(buffer[..], p) ==
                (Bit(before, p) || (off + progress <= p < off + progress + access && value[p - off]))
      {
        if p / 8 == b {
          assert piece[p % 8] == (inByte <= p % 8 < inByte + access && value[progress + p % 8 - inByte]);
        }
      }
      progress := progress + access;
    }
  }

  /** lai_buffer_get_at: a run of bits of a buffer as a value. */
  method GetAt(buffer: seq<Byte>, off: nat, n: nat) returns (value: Word)
    requires off + n <= 8 * |buffer| && n <= 64
    ensures forall i :: 0 <= i < 64 ==> value[i] == (i < n && Bit(buffer, off + i))
  {
    value := ZERO;
    var progress := 0;
    while progress < n
      invariant 0 <= progress <= n
      invariant forall i :: 0 <= i < 64 ==> value[i] == (i < progress && Bit(buffer, off + i))
    {
      var inByte := (off + progress) % 8;
      var access := Min(n - progress, 8 - inByte);
      var b := buffer[(off + progress) / 8];
      var piece := Shl(And(Shr(Widen(b), inByte), Mask(access)), progress);
      forall i | 0 <= i < 64
        ensures piece[i] == (progress <= i < progress + access && Bit(buffer, off + i))
      {
        if progress <= i < progress + access {
          assert (off + i) / 8 == (off + progress) / 8 && (off + i) % 8 == inByte + (i - progress);
        }
      }
      value := Or(value, piece);
      progress := progress + access;
    }
  }
}

module Fields {
  import opened Bits
  import Util

  datatype Rule = Preserve | WriteOnes | WriteZeroes

  /** `access` is the access width in bits, as computed by lai_calculate_access_width. */
  datatype Field = Field(off: nat, size: nat, access: nat, rule: Rule) {
    ghost predicate Legal() { access == 8 || access == 16 || access == 32 || access == 64 }

    /** First bit of the first access unit, and the bit after the last one. */
    function First(): nat requires access > 0 { off - InUnit(off, access) }
    function Last(): nat requires access > 0 { RoundUp(off + size, access) }

    /** Every access moves fewer than 64 bits. */
    predicate Partial() {
      access < 64 || (if off % 64 == 0 then size < 64 else off % 64 + size < 128)
    }

    predicate Covers(p: int) { off <= p < off + size }
  }

  /** Position of bit `x` in its access unit; the widths are powers of two, so C masks. */
  function InUnit(x: nat, access: nat): (r: nat)
    requires access > 0
    ensures r < access && r <= x
  {
    x % access
  }

  function RoundUp(x: nat, a: nat): nat
    requires a > 0
  {
    if InUnit(x, a) == 0 then x else x - InUnit(x, a) + a
  }

  // ------------------------------------------------------------------------------ access width

  /** The smallest power of two that is at least n and at least p. */
  function NextPower(n: nat, p: nat): (r: nat)
    requires p > 0
    decreases n - p
  {
    if p >= n then p else NextPower(n, 2 * p)
  }

  datatype AccessType = AnyAccess | ByteAccess | WordAccess | DwordAccess | QwordAccess

  /** lai_calculate_access_width for the legal access types. */
  function AccessWidth(t: AccessType, size: nat, inMemory: bool): nat {
    match t
    case ByteAccess => 8
    case WordAccess => 16
    case DwordAccess => 32
    case QwordAccess => 64
    case AnyAccess =>
      var wide := if size > 1 then NextPower(size, 1) else 1;
      var most := if inMemory then 64 else 32;
      var capped := if wide > most then most else wide;
      if capped < 8 then 8 else capped
  }

  /** For any-access fields the width is the least legal one that holds the field, up to the cap. */
  lemma AccessWidthLegal(t: AccessType, size: nat, inMemory: bool)
    ensures var w := AccessWidth(t, size, inMemory);
            && (w == 8 || w == 16 || w == 32 || w == 64)
            && (t.AnyAccess? ==>
                  && (w >= size || w == if inMemory then 64 else 32)
                  && (w > 8 ==> size > w / 2))
  {
    if t.AnyAccess? && size > 1 {
      NextPowerUnfold(size);
    }
  }

  lemma NextPowerUnfold(size: nat)
    requires size > 1
    ensures NextPower(size, 1) == if size <= 2 then 2 else if size <= 4 then 4 else if size <= 8 then 8
                                  else if size <= 16 then 16 else if size <= 32 then 32 else NextPower(size, 64)
    ensures NextPower(size, 64) >= 64
  {
    assert NextPower(size, 1) == NextPower(size, 2);
    assert size > 2 ==> NextPower(size, 2) == NextPower(size, 4);
    assert size > 4 ==> NextPower(size, 4) == NextPower(size, 8);
    assert size > 8 ==> NextPower(size, 8) == NextPower(size, 16);
    assert size > 16 ==> NextPower(size, 16) == NextPower(size, 32);
    assert size > 32 ==> NextPower(size, 32) == NextPower(size, 64);
    NextPowerAtLeast(size, 64);
  }

  lemma {:induction false} NextPowerAtLeast(n: nat, p: nat)
    requires p > 0
    ensures NextPower(n, p) >= p
    decreases n - p
  {
    if p < n {
      NextPowerAtLeast(n, 2 * p);
    }
  }

  // ---------------------------------------------------------------------------- region accesses

  /** lai_perform_read on a memory-like region: one access unit, zero extended. */
  method PerformRead(region: array<Byte>, access: nat, offset: nat) returns (value: Word)
    requires access == 8 || access == 16 || access == 32 || access == 64
    requires 8 * offset + access <= 8 * region.Length
    ensures forall i :: 0 <= i < 64 ==> value[i] == (i < access && Bit(region[..], 8 * offset + i))
  {
    var bytes := region[offset..offset + access / 8];
    value := seq(64, i requires 0 <= i < 64 => i < access && bytes[i / 8][i % 8]);
    forall i | 0 <= i < access ensures value[i] == Bit(region[..], 8 * offset + i) {
      assert (8 * offset + i) / 8 == offset + i / 8 && (8 * offset + i) % 8 == i % 8;
    }
  }

  /** lai_perform_write: the low bits of a value replace one access unit. */
  method PerformWrite(region: array<Byte>, access: nat, offset: nat, value: Word)
    requires access == 8 || access == 16 || access == 32 || access == 64
    requires 8 * offset + access <= 8 * region.Length
    modifies region
    ensures forall p :: 0 <= p < 8 * region.Length ==>
              Bit(region[..], p) == if 8 * offset <= p < 8 * offset + access then value[p - 8 * offset]
                                    else old(Bit(region[..], p))
  {
    var k := 0;
    while k < access / 8
      invariant 0 <= k <= access / 8
      invariant forall p :: 0 <= p < 8 * region.Length ==>
                  Bit(region[..], p) == if 8 * offset <= p < 8 * offset + 8 * k then value[p - 8 * offset]
                                        else old(Bit(region[..], p))
    {
      ghost var before := region[..];
      region[offset + k] := value[8 * k..8 * k + 8];
      forall p | 0 <= p < 8 * region.Length
        ensures Bit(region[..], p) == if p / 8 == offset + k then value[p - 8 * offset] else Bit(before, p)
      {
      }
      k := k + 1;
    }
  }

  lemma UnitAligned(x: nat, access: nat)
    requires access == 8 || access == 16 || access == 32 || access == 64
    ensures (x - InUnit(x, access)) % 8 == 0
    ensures InUnit(x - InUnit(x, access) + access, access) == 0
  {
    var q := x / access;
    assert x == access * q + x % access;
    Util.ModUnique(access * (q + 1), access, q + 1, 0);
    assert access * (q + 1) == access * q + access;
    if access == 8 {
      Util.ModUnique(8 * q, 8, q, 0);
    } else if access == 16 {
      Util.ModUnique(16 * q, 8, 2 * q, 0);
    } else if access == 32 {
      Util.ModUnique(32 * q, 8, 4 * q, 0);
    } else {
      Util.ModUnique(64 * q, 8, 8 * q, 0);
    }
  }

  /** Where the access unit of bit `x` ends, compared with the end of a field that goes on to `y`. */
  lemma UnitEnds(x: nat, y: nat, a: nat)
    requires 0 < a && x < y
    ensures x - InUnit(x, a) + a <= RoundUp(y, a)
    ensures y <= x - InUnit(x, a) + a ==> RoundUp(y, a) == x - InUnit(x, a) + a
  {
    var q, q' := x / a, y / a;
    var d := a * (q' - q);
    assert d == a * q' - a * q && x == a * q + x % a && y == a * q' + y % a;
    if q' > q {
      Util.MulAtLeast(a, q' - q);
    } else if q' < q {
      assert a * (q - q') == -d;
      Util.MulAtLeast(a, q - q');
    }
  }

  // ------------------------------------------------------------------------------ field access

  /** lai_read_field_internal: the bits of the field, or-ed into the destination. */
  method ReadInternal(dest: array<Byte>, f: Field, region: array<Byte>)
    requires f.Legal() && f.Partial() && dest != region
    requires f.size <= 8 * dest.Length && f.Last() <= 8 * region.Length
    modifies dest
    ensures forall p :: 0 <= p < 8 * dest.Length ==>
              Bit(dest[..], p) == (old(Bit(dest[..], p)) || (p < f.size && Bit(region[..], f.off + p)))
  {
    hide Bit, InUnit;
    var offset := (f.off - InUnit(f.off, f.access)) / 8;
    UnitAligned(f.off, f.access);
    var progress := 0;
    while progress < f.size
      invariant 0 <= progress <= f.size
      invariant progress < f.size ==> 8 * offset == f.off + progress - InUnit(f.off + progress, f.access)
      invariant 0 < progress < f.size ==> InUnit(f.off + progress, f.access) == 0
      invariant forall p :: 0 <= p < 8 * dest.Length ==>
                  Bit(dest[..], p) == (old(Bit(dest[..], p)) || (p < progress && Bit(region[..], f.off + p)))
    {
      var x := f.off + progress;
      UnitAligned(x, f.access);
      UnitInside(f, progress);
      var bitOffset := InUnit(x, f.access);
      var bits := Min(f.size - progress, f.access - bitOffset);
      ReadUnit(dest, f, region, progress, offset, bitOffset, bits);
      progress := progress + bits;
      offset := offset + f.access / 8;
    }
  }

  /** One round of the read loop. */
  method ReadUnit(dest: array<Byte>, f: Field, region: array<Byte>, progress: nat, offset: nat, bitOffset: nat,
                  bits: nat)
    requires f.Legal() && dest != region && 0 < bits < 64 && bitOffset + bits <= f.access
    requires progress + bits <= f.size <= 8 * dest.Length && 8 * offset + bitOffset == f.off + progress
    requires 8 * offset + f.access <= 8 * region.Length
    modifies dest
    ensures forall p :: 0 <= p < 8 * dest.Length ==>
              Bit(dest[..], p) ==
              (old(Bit(dest[..], p)) || (progress <= p < progress + bits && Bit(region[..], f.off + p)))
  {
    var value := PerformRead(region, f.access, offset);
    var shifted := And(Shr(value, bitOffset), Mask(bits));
    forall i | 0 <= i < bits ensures shifted[i] == Bit(region[..], f.off + progress + i) {
      assert shifted[i] == value[bitOffset + i];
    }
    ghost var source := region[..];
    PutAt(dest, shifted, progress, bits);
    assert region[..] == source;
  }

  /** Each access unit lies within the region, and moves fewer than 64 bits. */
  lemma UnitInside(f: Field, progress: nat)
    requires f.Legal() && f.Partial() && progress < f.size
    requires progress > 0 ==> InUnit(f.off + progress, f.access) == 0
    ensures var x := f.off + progress;
            var bits := Min(f.size - progress, f.access - InUnit(x, f.access));
            && x - InUnit(x, f.access) + f.access <= f.Last()
            && 0 < bits < 64
            && (bits == f.size - progress ==> f.Last() == x - InUnit(x, f.access) + f.access)
  {
    UnitEnds(f.off + progress, f.off + f.size, f.access);
    if f.access == 64 {
      PartialChunk(f, progress);
    }
  }

  lemma PartialChunk(f: Field, progress: nat)
    requires f.access == 64 && f.Partial() && progress < f.size
    requires progress > 0 ==> (f.off + progress) % 64 == 0
    ensures Min(f.size - progress, 64 - (f.off + progress) % 64) < 64
  {
    if f.off % 64 != 0 && progress > 0 {
      assert progress >= 64 - f.off % 64;
    }
  }

  /** The bit a write leaves at position `p` of a touched access unit. */
  ghost function NewBit(f: Field, source: seq<Byte>, was: bool, p: nat): bool
    requires f.size <= 8 * |source|
  {
    if f.Covers(p) then Bit(source, p - f.off)
    else match f.rule
      case Preserve => was
      case WriteOnes => true
      case WriteZeroes => false
  }

  /** lai_write_field_internal: field bits come from the source; the other bits of the touched access
      units follow the update rule; nothing else changes. */
  method WriteInternal(source: seq<Byte>, f: Field, region: array<Byte>)
    requires f.Legal() && f.Partial()
    requires f.size <= 8 * |source| && f.Last() <= 8 * region.Length
    modifies region
    ensures forall p :: 0 <= p < 8 * region.Length ==>
              Bit(region[..], p) ==
              if f.size > 0 && f.First() <= p < f.Last() then NewBit(f, source, old(Bit(region[..], p)), p)
              else old(Bit(region[..], p))
  {
    hide NewBit, Bit, InUnit;
    var offset := (f.off - InUnit(f.off, f.access)) / 8;
    UnitAligned(f.off, f.access);
    var progress := 0;
    while progress < f.size
      invariant 0 <= progress <= f.size && f.First() <= 8 * offset
      invariant progress == 0 ==> 8 * offset == f.First()
      invariant progress < f.size ==> 8 * offset == f.off + progress - InUnit(f.off + progress, f.access)
      invariant 0 < progress < f.size ==> InUnit(f.off + progress, f.access) == 0
      invariant 0 < progress == f.size ==> 8 * offset == f.Last()
      invariant forall p :: 0 <= p < 8 * region.Length ==>
                  Bit(region[..], p) ==
                  if f.First() <= p < 8 * offset then NewBit(f, source, old(Bit(region[..], p)), p)
                  else old(Bit(region[..], p))
    {
      var x := f.off + progress;
      UnitAligned(x, f.access);
      UnitInside(f, progress);
      var bitOffset := InUnit(x, f.access);
      var bits := Min(f.size - progress, f.access - bitOffset);
      WriteUnit(source, f, region, progress, offset, bitOffset, bits);
      progress := progress + bits;
      offset := offset + f.access / 8;
    }
  }

  /** One round of the write loop: read-modify-write of a single access unit. */
  method WriteUnit(source: seq<Byte>, f: Field, region: array<Byte>, progress: nat, offset: nat, bitOffset: nat,
                   bits: nat)
    requires f.Legal() && f.size <= 8 * |source| && 0 < bits < 64 && bitOffset + bits <= f.access
    requires progress + bits <= f.size && 8 * offset + bitOffset == f.off + progress
    requires 8 * offset + f.access <= 8 * region.Length
    requires progress > 0 ==> bitOffset == 0
    requires progress + bits < f.size ==> bitOffset + bits == f.access
    modifies region
    ensures forall p :: 0 <= p < 8 * region.Length ==>
              Bit(region[..], p) ==
              if 8 * offset <= p < 8 * offset + f.access then NewBit(f, source, old(Bit(region[..], p)), p)
              else old(Bit(region[..], p))
  {
    var mask := Shl(Mask(bits), bitOffset);
    var value;
    match f.rule {
      case Preserve => value := PerformRead(region, f.access, offset);
      case WriteOnes => value := ONES;
      case WriteZeroes => value := ZERO;
    }
    value := And(value, Not(mask));
    var new_ := GetAt(source, progress, bits);
    value := Or(value, And(Shl(new_, bitOffset), mask));
    forall i | 0 <= i < f.access
      ensures value[i] == NewBit(f, source, Bit(region[..], 8 * offset + i), 8 * offset + i)
    {
      assert f.Covers(8 * offset + i) <==> bitOffset <= i < bitOffset + bits;
    }
    PerformWrite(region, f.access, offset, value);
  }

  // ---------------------------------------------------------------------- fields as AML objects

  datatype Object = Integer(w: Word) | Buffer(bytes: seq<Byte>) | Text(bytes: seq<Byte>)

  function Slice(w: Word, k: nat): Byte
    requires k < 8
  {
    w[8 * k..8 * k + 8]
  }

  /** The bytes that lai_write_field hands on. */
  function Bytes(o: Object): seq<Byte> {
    match o
    case Integer(w) => seq(8, k requires 0 <= k < 8 => Slice(w, k))
    case Buffer(bytes) => bytes
    case Text(bytes) => bytes
  }

  lemma IntegerBit(w: Word, p: nat)
    requires p < 64
    ensures Bit(Bytes(Integer(w)), p) == w[p]
  {
  }

  /** lai_write_field. */
  method WriteField(f: Field, source: Object, region: array<Byte>)
    requires f.Legal() && f.Partial()
    requires f.size <= 8 * |Bytes(source)| && f.Last() <= 8 * region.Length
    modifies region
    ensures forall p :: 0 <= p < 8 * region.Length ==>
              Bit(region[..], p) ==
              if f.size > 0 && f.First() <= p < f.Last() then NewBit(f, Bytes(source), old(Bit(region[..], p)), p)
              else old(Bit(region[..], p))
  {
    WriteInternal(Bytes(source), f, region);
  }

  /** lai_read_field: an integer up to 64 bits, a buffer beyond. */
  method ReadField(f: Field, region: array<Byte>) returns (r: Object)
    requires f.Legal() && f.Partial() && f.Last() <= 8 * region.Length
    ensures r.Integer? <==> f.size <= 64
    ensures 8 * |Bytes(r)| >= f.size
    ensures forall p :: 0 <= p < 8 * |Bytes(r)| ==> Bit(Bytes(r), p) == (p < f.size && Bit(region[..], f.off + p))
  {
    hide Shl, Or, Widen, Slice;
    RoundUpAbove(f.off + f.size, f.access);
    var n := (f.size + 7) / 8;
    var zero: Byte := seq(8, _ => false);
    var buf := new Byte[n](_ => zero);
    ReadInternal(buf, f, region);
    if n > 8 {
      r := Buffer(buf[..]);
    } else {
      var value := Combine(buf[..]);
      r := Integer(value);
      forall p | 0 <= p < 64 ensures Bit(Bytes(r), p) == (p < f.size && Bit(region[..], f.off + p)) {
        IntegerBit(value, p);
      }
    }
  }

  /** The loop that puts the bytes of a short field together. */
  method Combine(bytes: seq<Byte>) returns (value: Word)
    requires |bytes| <= 8
    ensures forall p :: 0 <= p < 64 ==> value[p] == (p < 8 * |bytes| && Bit(bytes, p))
  {
    value := ZERO;
    for i := 0 to |bytes|
      invariant forall p :: 0 <= p < 64 ==> value[p] == (p < 8 * i && Bit(bytes, p))
    {
      value := Or(value, Shl(Widen(bytes[i]), 8 * i));
    }
  }

  lemma RoundUpAbove(x: nat, a: nat)
    requires a > 0
    ensures RoundUp(x, a) >= x
  {
  }

  /** Writing a field and reading it back returns the bits that were written, and with the preserve
      rule every region bit outside the field is what it was. */
  method ReadAfterWrite(f: Field, source: Object, region: array<Byte>) returns (r: Object)
    requires f.Legal() && f.Partial()
    requires f.size <= 8 * |Bytes(source)| && f.Last() <= 8 * region.Length
    modifies region
    ensures 8 * |Bytes(r)| >= f.size
    ensures forall p :: 0 <= p < 8 * |Bytes(r)| ==> Bit(Bytes(r), p) == (p < f.size && Bit(Bytes(source), p))
    ensures source.Integer? && f.size <= 64 ==>
              r.Integer? && forall i :: 0 <= i < 64 ==> r.w[i] == (i < f.size && source.w[i])
    ensures f.rule.Preserve? ==>
              forall p :: 0 <= p < 8 * region.Length && !f.Covers(p) ==> Bit(region[..], p) == old(Bit(region[..], p))
  {
    RoundUpAbove(f.off + f.size, f.access);
    WriteField(f, source, region);
    r := ReadField(f, region);
    forall p | 0 <= p < 8 * |Bytes(r)| ensures Bit(Bytes(r), p) == (p < f.size && Bit(Bytes(source), p)) {
      if p < f.size {
        assert f.First() <= f.off + p < f.Last() && f.Covers(f.off + p);
      }
    }
    if source.Integer? && f.size <= 64 {
      forall i | 0 <= i < 64 ensures r.w[i] == (i < f.size && source.w[i]) {
        IntegerBit(r.w, i);
        IntegerBit(source.w, i);
      }
    }
  }

  // ------------------------------------------------------------------------------ declared fields

  /** The access type in the low four bits of a field's flags. */
  function TypeOf(flags: nat): Util.Option<AccessType> {
    match flags % 16
    case 0 => Util.Some(AnyAccess)
    case 1 => Util.Some(ByteAccess)
    case 2 => Util.Some(WordAccess)
    case 3 => Util.Some(DwordAccess)
    case 4 => Util.Some(QwordAccess)
    case _ => Util.None
  }

  /** The update rule in the four bits from bit 5 on. */
  function RuleOf(flags: nat): Util.Option<Rule> {
    match flags / 32 % 16
    case 0 => Util.Some(Preserve)
    case 1 => Util.Some(WriteOnes)
    case 2 => Util.Some(WriteZeroes)
    case _ => Util.None
  }

  /** A field as its declaration describes it; None where the code panics on the flags. */
  function Declared(off: nat, size: nat, flags: nat, inMemory: bool): Util.Option<Field> {
    if TypeOf(flags).None? || RuleOf(flags).None? then Util.None
    else Util.Some(Field(off, size, AccessWidth(TypeOf(flags).value, size, inMemory), RuleOf(flags).value))
  }

  /** Access types 1 to 4 are widths that double from one byte on, as section 20.2.5.2 of the ACPI
      Specification numbers them. */
  lemma DeclaredWidth(off: nat, size: nat, flags: nat, inMemory: bool)
    requires Declared(off, size, flags, inMemory).Some?
    ensures var f := Declared(off, size, flags, inMemory).value;
            && f.Legal() && f.off == off && f.size == size
            && (flags % 16 >= 1 ==> f.access == 4 * Util.Pow2(flags % 16))
            && (f.rule.Preserve? <==> flags / 32 % 16 == 0)
  {
    AccessWidthLegal(TypeOf(flags).value, size, inMemory);
    assert Util.Pow2(1) == 2 && Util.Pow2(2) == 4;
    assert Util.Pow2(3) == 8 && Util.Pow2(4) == 16;
  }

  /** lai_write_field and lai_read_field on a declared field. */
  method DeclaredReadAfterWrite(off: nat, size: nat, flags: nat, inMemory: bool, source: Object, region: array<Byte>)
    returns (r: Util.Option<Object>)
    requires var d := Declared(off, size, flags, inMemory);
             d.Some? ==> d.value.access > 0 && d.value.Partial() && d.value.Last() <= 8 * region.Length
    requires size <= 8 * |Bytes(source)|
    modifies region
    ensures r.None? <==> Declared(off, size, flags, inMemory).None?
    ensures r.None? ==> region[..] == old(region[..])
    ensures r.Some? ==> 8 * |Bytes(r.value)| >= size
    ensures r.Some? ==> forall p :: 0 <= p < 8 * |Bytes(r.value)| ==>
                          Bit(Bytes(r.value), p) == (p < size && Bit(Bytes(source), p))
    ensures r.Some? && flags / 32 % 16 == 0 ==>
              forall p :: 0 <= p < 8 * region.Length && !(off <= p < off + size) ==>
                Bit(region[..], p) == old(Bit(region[..], p))
  {
    var d := Declared(off, size, flags, inMemory);
    if d.None? {
      return Util.None;
    }
    DeclaredWidth(off, size, flags, inMemory);
    var o := ReadAfterWrite(d.value, source, region);
    r := Util.Some(o);
  }
}

module BufferFields {
  import opened Bits

  /** The buffer after a store into bits [off, off + size). */
  function Written(data: seq<Byte>, off: nat, size: nat, value: Word): seq<Byte>
    requires size <= 64
  {
    seq(|data|, k requires 0 <= k < |data| => WrittenByte(data[k], k, off, size, value))
  }

  function WrittenByte(was: Byte, k: nat, off: nat, size: nat, value: Word): Byte
    requires size <= 64
  {
    seq(8, j requires 0 <= j < 8 => if off <= 8 * k + j < off + size then value[8 * k + j - off] else was[j])
  }

  /** lai_write_buffer. */
  method WriteBuffer(data: array<Byte>, off: nat, size: nat, value: Word)
    requires off + size <= 8 * data.Length && size <= 64
    modifies data
    ensures data[..] == Written(old(data[..]), off, size, value)
  {
    var n := 0;
    forall k | 0 <= k < data.Length ensures Written(data[..], off, 0, value)[k] == data[k] {
      assert WrittenByte(data[k], k, off, 0, value) == data[k];
    }
    while n < size
      invariant 0 <= n <= size
      invariant data[..] == Written(old(data[..]), off, n, value)
    {
      var bit := (off + n) % 8;
      var m := Min(size - n, 8 - bit);
      var mask := Shl(Mask(m), bit);
      var b := (off + n) / 8;
      ghost var before := data[..];
      data[b] := AndByte(data[b], NotByte(Low(mask)));
      data[b] := OrByte(data[b], Low(Shl(And(Shr(value, n), Mask(m)), bit)));
      forall k | 0 <= k < data.Length
        ensures data[k] == Written(old(data[..]), off, n + m, value)[k]
      {
        assert before[k] == Written(old(data[..]), off, n, value)[k];
      }
      n := n + m;
    }
  }

  /** Bit `i` of what lai_read_buffer returns: within a byte the field's own bits are not shifted down. */
  function ReadBit(data: seq<Byte>, off: nat, i: nat): bool
    requires off + i < 8 * |data|
  {
    var inByte := (off + i) % 8;
    data[(off + i) / 8][if inByte <= i then inByte else i]
  }

  /** lai_read_buffer. */
  method ReadBuffer(data: seq<Byte>, off: nat, size: nat) returns (r: Word)
    requires off + size <= 8 * |data| && size <= 64
    ensures forall i :: 0 <= i < 64 ==> r[i] == (i < size && ReadBit(data, off, i))
  {
    r := ZERO;
    var n := 0;
    while n < size
      invariant 0 <= n <= size && (n == 0 || n == size || (off + n) % 8 == 0)
      invariant forall i :: 0 <= i < 64 ==> r[i] == (i < n && ReadBit(data, off, i))
    {
      var bit := (off + n) % 8;
      var m := Min(size - n, 8 - bit);
      var cur := data[(off + n) / 8];
      var piece := Shl(And(Widen(cur), Mask(m)), n);
      forall i | 0 <= i < 64
        ensures piece[i] == (n <= i < n + m && ReadBit(data, off, i))
      {
        if n <= i < n + m {
          assert (off + i) / 8 == (off + n) / 8 && (off + i) % 8 == bit + (i - n);
        }
      }
      r := Or(r, piece);
      n := n + m;
    }
  }

  /** Every store of every value into every buffer of that length is read back. */
  ghost predicate ReadsBack(off: nat, size: nat, length: nat)
    requires off + size <= 8 * length && size <= 64
  {
    forall data: seq<Byte>, value: Word, i: nat {:trigger ReadBit(Written(data, off, size, value), off, i)} ::
      |data| == length && i < size ==> ReadBit(Written(data, off, size, value), off, i) == value[i]
  }

  /** A buffer field reads back what was stored if and only if it starts on a byte boundary. */
  lemma ReadsBackIffAligned(off: nat, size: nat, length: nat)
    requires off + size <= 8 * length && 0 < size <= 64
    ensures ReadsBack(off, size, length) <==> off % 8 == 0
  {
    if off % 8 == 0 {
      forall data: seq<Byte>, value: Word, i: nat | |data| == length && i < size
        ensures ReadBit(Written(data, off, size, value), off, i) == value[i]
      {
      }
    } else {
      var zero: Byte := seq(8, _ => false);
      var data: seq<Byte> := seq(length, _ => zero);
      assert ReadBit(Written(data, off, size, ONES), off, 0) == false;
      assert ONES[0];
    }
  }
}
