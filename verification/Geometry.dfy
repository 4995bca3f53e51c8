// Where the blocks of a kmalloc slab lie inside its 2 MB page.
module Geometry {
  import opened Common
  import opened Pages

  const PAGE_OFFSET := 0xffff_8000_0000_0000
  const SLAB_STRUCT := 72      // sizeof(struct Slab)
  const CLASSES := 16
  const FIRST_LARGE := 5       // classes from 1024 on keep their slab structure outside the page

  /** The sizes of kmalloc_cache_size. */
  function Size(cls: nat): (s: nat)
    requires cls < CLASSES
    ensures 32 <= s <= 0x10_0000 && PAGE_2M % s == 0 && PAGE_OFFSET % s == 0
  {
    [32, 64, 128, 256, 512, 1024, 2048, 4096, 8192, 16384,
     32768, 65536, 131072, 262144, 524288, 1048576][cls]
  }

  /** The number of blocks of a slab; the boot slabs have no structure inside their page. */
  function Capacity(cls: nat, boot: bool): nat
    requires cls < CLASSES
  {
    if boot || cls >= FIRST_LARGE then PAGE_2M / Size(cls)
    else (PAGE_2M - PAGE_2M / Size(cls) / 8 - SLAB_STRUCT) / Size(cls)
  }

  /** The bytes at the start of the page that blocks may use. */
  function Room(cls: nat, boot: bool): nat
    requires cls < CLASSES
  {
    if boot || cls >= FIRST_LARGE then PAGE_2M
    else PAGE_2M - (SLAB_STRUCT + PAGE_2M / Size(cls) / 8)
  }

  /** Words of the colour map, and its length in bytes as slab->color_length has it. */
  function MapWords(count: nat): nat {
    (count + 63) / 64
  }

  function Base(page: nat): nat {
    PAGE_OFFSET + page * PAGE_2M
  }

  /** `(char *)slab->Vaddress + size * j` */
  function BlockAddress(vaddress: nat, size: nat, j: nat): nat {
    vaddress + size * j
  }

  function Address(page: nat, cls: nat, j: nat): nat
    requires cls < CLASSES
  {
    BlockAddress(Base(page), Size(cls), j)
  }

  /** Every size is one of sixteen numbers. */
  lemma SizeCases(cls: nat)
    requires cls < CLASSES
    ensures Size(cls) == 32 || Size(cls) == 64 || Size(cls) == 128 || Size(cls) == 256 || Size(cls) == 512 ||
            Size(cls) == 1024 || Size(cls) == 2048 || Size(cls) == 4096 || Size(cls) == 8192 || Size(cls) == 16384 ||
            Size(cls) == 32768 || Size(cls) == 65536 || Size(cls) == 131072 || Size(cls) == 262144 ||
            Size(cls) == 524288 || Size(cls) == 1048576
  {}

  /** Each class has blocks twice as long as the class before. */
  lemma SizesDouble(cls: nat)
    requires cls < CLASSES
    ensures Size(0) == 32 && Size(15) == 1048576 && CLASSES == 16
    ensures cls > 0 ==> Size(cls) == 2 * Size(cls - 1)
    ensures cls < FIRST_LARGE <==> Size(cls) <= 512
  {
    SizeCases(cls);
  }

  /**
   The blocks of a slab fill the 2 MB but for the 72 bytes of its structure and a map of one bit for every block size
   of the page, and no block more would go into the room left; larger blocks and boot slabs fill the page.
   */
  lemma SlabFillsPage(cls: nat, boot: bool)
    requires cls < CLASSES
    ensures Size(cls) * Capacity(cls, boot) <= Room(cls, boot) < Size(cls) * (Capacity(cls, boot) + 1)
    ensures boot || Size(cls) > 512 ==> Room(cls, boot) == 2097152 == Size(cls) * Capacity(cls, boot)
    ensures !boot && Size(cls) <= 512 ==>
              exists bytes :: 8 * bytes * Size(cls) == 2097152 && Room(cls, boot) + 72 + bytes == 2097152
  {
    SizesDouble(cls);
    Quotient(Size(cls), Room(cls, boot));
    if !boot && cls < FIRST_LARGE {
      var bytes := PAGE_2M / Size(cls) / 8;
      assert 8 * bytes * Size(cls) == 2097152 by { SizeCases(cls); }
    } else {
      assert Size(cls) * (PAGE_2M / Size(cls)) == PAGE_2M by { assert PAGE_2M % Size(cls) == 0; }
    }
  }

  lemma Quotient(s: nat, x: nat)
    requires s > 0
    ensures s * (x / s) <= x < s * (x / s + 1)
  {}

  lemma Fits(s: nat, x: nat, j: nat)
    requires s > 0 && j < x / s
    ensures s * j + s <= x
  {
    var q := x / s;
    assert s * q <= x;
    Monotone(s, j + 1, q);
    assert s * (j + 1) == s * j + s;
  }

  lemma Monotone(s: nat, x: nat, y: nat)
    ensures x <= y ==> s * x <= s * y
  {}

  /** All blocks of a slab lie in the room it leaves for them, the in-page header and map behind it. */
  lemma BlockFits(cls: nat, boot: bool, j: nat)
    requires cls < CLASSES && j < Capacity(cls, boot)
    ensures Size(cls) * j + Size(cls) <= Room(cls, boot) <= PAGE_2M
    ensures !boot && cls < FIRST_LARGE ==>
              Room(cls, boot) + SLAB_STRUCT + 8 * MapWords(Capacity(cls, boot)) <= PAGE_2M
  {
    Fits(Size(cls), Room(cls, boot), j);
    if !boot && cls < FIRST_LARGE {
      assert Size(cls) in {32, 64, 128, 256, 512};
    }
  }

  /** Block addresses are multiples of the class size. */
  lemma BlockAligned(page: nat, cls: nat, j: nat)
    requires cls < CLASSES
    ensures Address(page, cls, j) % Size(cls) == 0
  {
    var s := Size(cls);
    var a, b := PAGE_OFFSET / s, PAGE_2M / s;
    assert PAGE_OFFSET == s * a && PAGE_2M == s * b;
    assert Address(page, cls, j) == s * (a + b * page + j) by {
      assert page * PAGE_2M == s * (b * page) by { Reassociate(s, b, page); }
      Distribute(s, a, b * page, j);
    }
    Multiple(s, a + b * page + j);
  }

  lemma Reassociate(x: nat, y: nat, z: nat)
    ensures z * (x * y) == x * (y * z)
  {}

  lemma Distribute(s: nat, x: nat, y: nat, z: nat)
    ensures s * (x + y + z) == s * x + s * y + s * z
  {}

  lemma Multiple(s: nat, k: nat)
    requires s > 0
    ensures (s * k) % s == 0 && (s * k) / s == k
  {
    var q, r := (s * k) / s, (s * k) % s;
    assert s * k == s * q + r;
    Monotone(s, k + 1, q);
    Monotone(s, q + 1, k);
  }

  /** Masking an address with PAGE_2M_MASK recovers the page, and the division in kfree the index. */
  lemma IndexRecovered(page: nat, cls: nat, boot: bool, j: nat)
    requires cls < CLASSES && j < Capacity(cls, boot)
    ensures PageBase(Address(page, cls, j)) == Base(page)
    ensures (Address(page, cls, j) - Base(page)) / Size(cls) == j
  {
    BlockFits(cls, boot, j);
    SizeCases(cls);
  }

  /** `address & PAGE_2M_MASK` */
  function PageBase(address: nat): nat {
    address - address % PAGE_2M
  }

  /** The page index of a direct-map address. */
  function PageOf(a: nat): nat {
    if a < PAGE_OFFSET then 0 else (a - PAGE_OFFSET) / PAGE_2M
  }

  /** The block index that kfree computes for an address of the page. */
  function IndexOf(a: nat, cls: nat): nat
    requires cls < CLASSES
  {
    if a < Base(PageOf(a)) then 0 else (a - Base(PageOf(a))) / Size(cls)
  }

  /** A block address determines its page and, within the page, its index. */
  lemma AddressUnique(page: nat, cls: nat, boot: bool, j: nat)
    requires cls < CLASSES && j < Capacity(cls, boot)
    ensures PageOf(Address(page, cls, j)) == page
    ensures IndexOf(Address(page, cls, j), cls) == j
    ensures PageBase(Address(page, cls, j)) == Base(page)
  {
    BlockFits(cls, boot, j);
    IndexRecovered(page, cls, boot, j);
  }
}
