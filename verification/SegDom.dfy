/** User segment descriptors of src/cpu/segdom.c, decoded as in the Intel SDM, volume 3A, section 3.4.5. */
module SegDom {
  import opened Bytes

  const TOP: nat := 0x1_0000_0000

  type u16 = x: int | 0 <= x < 0x10000

  /** The packed eight bytes. */
  datatype Desc = Desc(limitLow: u16, baseLow: u16, baseMid: byte, access: byte, gran: byte, baseHigh: byte)

  const CODE: byte := 0xFA
  const DATA: byte := 0xF2
  const PAGES: byte := 0xCF
  const BYTES: byte := 0x40

  /** `segdesc_make`. */
  function MakeDesc(base: u32, limit: u32, access: byte, gran: byte): Desc {
    Desc(limit % 0x10000, base % 0x10000, base / 0x10000 % 0x100, access,
         limit / 0x10000 % 0x10 + gran / 0x10 * 0x10, base / 0x1000000 % 0x100)
  }

  // ----- what the processor reads -----

  function BaseOf(d: Desc): nat {
    d.baseLow + 0x10000 * d.baseMid as nat + 0x1000000 * d.baseHigh as nat
  }

  function LimitField(d: Desc): nat {
    d.limitLow + 0x10000 * (d.gran as nat % 0x10)
  }

  predicate PageMode(d: Desc) {
    d.gran as nat / 0x80 == 1
  }

  /** The last byte offset the segment allows: the field itself, or its 4 KiB page to the end. */
  function EffectiveLimit(d: Desc): nat {
    if PageMode(d) then 0x1000 * LimitField(d) + 0xFFF else LimitField(d)
  }

  /** The descriptor gives back the base, and every limit of twenty bits. */
  lemma DescDecodes(base: u32, limit: u32, access: byte, gran: byte)
    ensures var d := MakeDesc(base, limit, access, gran);
      && BaseOf(d) == base && d.access == access
      && (limit < 0x100000 ==> LimitField(d) == limit)
      && (PageMode(d) <==> gran >= 0x80)
  {
    var d := MakeDesc(base, limit, access, gran);
    var high := base / 0x10000;
    assert base == 0x10000 * high + base % 0x10000;
    assert high == 0x100 * (high / 0x100) + high % 0x100;
    assert high / 0x100 == base / 0x1000000;
    assert limit == 0x10000 * (limit / 0x10000) + limit % 0x10000;
    var low, flags := limit / 0x10000 % 0x10, gran as nat / 0x10;
    assert d.gran as nat == low + flags * 0x10;
    assert d.gran as nat % 0x10 == low && d.gran as nat / 0x10 == flags;
  }

  /** Where the eight bytes' bits come from: sixteen of the limit, twenty-four of the base in three
      pieces, the access byte, four more of the limit under the flags, the rest of the base. */
  lemma {:induction false} DescFields(base: u32, limit: u32, access: byte, gran: byte)
    ensures var d := MakeDesc(base, limit, access, gran);
      && d.limitLow == limit % 65536 && d.baseLow == base % 65536
      && d.baseMid == base / 65536 % 256 && d.access == access
      && d.gran as int % 16 == limit / 65536 % 16 && d.gran as int / 16 == gran as int / 16
      && d.baseHigh == base / 16777216
  {
  }

  /** Both segments are present, for ring 3, and no system segments; one is code that may be read, one
      data that may be written. The flags say 32 bits, and limits in pages or in bytes. */
  lemma AccessBits()
    ensures forall a: byte :: a in [CODE, DATA] ==> a / 128 == 1 && a / 32 % 4 == 3 && a / 16 % 2 == 1 && a / 2 % 2 == 1
    ensures CODE as int / 8 % 2 == 1 && DATA as int / 8 % 2 == 0 && CODE as int / 4 % 2 == 0 == DATA as int / 4 % 2
    ensures PAGES as int / 64 % 2 == 1 == BYTES as int / 64 % 2 && PAGES as int / 128 == 1 && BYTES as int / 128 == 0
  {
  }

  // ----- a user domain -----

  class Domain {
    var ldt: seq<Desc>
    var userCs: u16
    var userDs: u16
    var base: u32
    var limit: u32

    /** `segdom_init`, which builds the local descriptor table. */
    constructor (base: u32, limitBytes: u32)
      ensures this.base == base && limit == limitBytes
      ensures |ldt| == 3 && userCs == 0x0F && userDs == 0x17
      ensures forall k :: 1 <= k < 3 ==> Segment(ldt[k], base, limitBytes)
      ensures ldt[1].access == CODE && ldt[2].access == DATA
    {
      var bytes := if limitBytes == 0 then 1 else limitBytes;
      var field: u32, gran := bytes - 1, BYTES;
      if bytes > 0xFFFFF {
        field, gran := (bytes - 1) / 0x1000, PAGES;
      }
      this.base, limit := base, limitBytes;
      userCs, userDs := 1 * 8 + 4 + 3, 2 * 8 + 4 + 3;
      ldt := [MakeDesc(0, 0, 0, 0), MakeDesc(base, field, CODE, gran), MakeDesc(base, field, DATA, gran)];
      SegmentBuilt(base, limitBytes, CODE);
      SegmentBuilt(base, limitBytes, DATA);
    }

    /** `segdom_user_range_ok`, in wrapping 32-bit arithmetic. */
    function RangeOk(addr: u32, len: u32): bool
      reads this
    {
      if len == 0 then true
      else
        var end := (addr + len) % TOP;
        if end < addr then false
        else if addr < base then false
        else !(end > (base + limit) % TOP)
    }

    /** A range is accepted exactly when it is empty, or lies in the domain and the domain ends
        below the top of the address space. */
    lemma RangeOkIff(addr: u32, len: u32)
      ensures RangeOk(addr, len) <==> len == 0 || (base <= addr && addr + len <= base + limit && base + limit < TOP)
    {
    }

    /** A domain that ends exactly at the top of the address space holds no range at all. */
    lemma TopRefused(addr: u32, len: u32)
      requires base + limit == TOP && len > 0
      ensures !RangeOk(addr, len)
    {
    }

    /** What the range check accepts, the processor lets through: every byte of it is within the
        limit of a descriptor for this domain. */
    lemma AcceptedInSegment(d: Desc, addr: u32, len: u32, at: nat)
      requires Segment(d, base, limit) && RangeOk(addr, len) && addr <= at < addr + len
      ensures BaseOf(d) <= at < TOP && at - BaseOf(d) <= EffectiveLimit(d)
    {
      RangeOkIff(addr, len);
    }
  }

  /** The descriptor stands for the domain: its base, and the least limit that covers it, which is
      exact up to 20 bits and rounded up to a page beyond. */
  predicate Segment(d: Desc, base: u32, limitBytes: u32) {
    var bytes := if limitBytes == 0 then 1 else limitBytes as nat;
    && BaseOf(d) == base
    && (PageMode(d) <==> bytes > 0xFFFFF)
    && (if bytes > 0xFFFFF
        then (EffectiveLimit(d) + 1) % 0x1000 == 0 && bytes <= EffectiveLimit(d) + 1 < bytes + 0x1000
        else EffectiveLimit(d) + 1 == bytes)
  }

  lemma SegmentBuilt(base: u32, limitBytes: u32, access: byte)
    ensures var bytes: u32 := if limitBytes == 0 then 1 else limitBytes;
      var pages := bytes > 0xFFFFF;
      var field, gran := if pages then (bytes - 1) / 0x1000 else bytes - 1, if pages then PAGES else BYTES;
      Segment(MakeDesc(base, field, access, gran), base, limitBytes)
  {
    var bytes: u32 := if limitBytes == 0 then 1 else limitBytes;
    var pages := bytes > 0xFFFFF;
    var field: u32 := if pages then (bytes - 1) / 0x1000 else bytes - 1;
    DescDecodes(base, field, access, if pages then PAGES else BYTES);
    var d := MakeDesc(base, field, access, if pages then PAGES else BYTES);
    if pages {
      assert bytes - 1 == 0x1000 * field + (bytes - 1) % 0x1000;
      assert EffectiveLimit(d) + 1 == 0x1000 * (field + 1);
    }
  }
}
