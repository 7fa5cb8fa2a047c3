/** How a slab lays its objects out behind its header, for every size class. */
module SlabLayout {
  import opened Align
  import opened Dyadic
  import opened Geometry

  const MAX_SLAB_ORDER: nat := 4
  const MIN_OBJS_PER_SLAB: nat := 8
  const SLAB_MIN_ALIGN: nat := 16
  const HEADER_BYTES: nat := 40
  const FREE_NODE_BYTES: nat := 16

  const CLASSES: seq<nat> := [8, 16, 32, 64, 96, 128, 192, 256, 384, 512, 768, 1024, 1536, 2048]

  datatype Cache = Cache(objSize: nat, order: nat, objsPerSlab: nat)

  function ObjSize(sizeClass: nat): nat {
    AlignUp(if sizeClass < FREE_NODE_BYTES then FREE_NODE_BYTES else sizeClass, SLAB_MIN_ALIGN)
  }

  /** `PAGE_SIZE << order`. */
  function Span(order: nat): nat {
    PAGE_SIZE * Pow2(order)
  }

  /** Where objects of a size start behind an aligned slab base. */
  function Start(objSize: nat): nat
    requires objSize > 0
  {
    AlignUp(HEADER_BYTES, objSize)
  }

  /** `objects_start`: where they start behind a slab at address base. */
  function ObjectsStart(base: nat, objSize: nat): nat
    requires objSize > 0
  {
    AlignUp(base + HEADER_BYTES, objSize)
  }

  /** How many objects of a size fit a span. */
  function Capacity(objSize: nat, order: nat): nat
    requires objSize > 0
  {
    Div(if Span(order) > Start(objSize) then Span(order) - Start(objSize) else 0, objSize)
  }

  function Div(x: nat, d: nat): nat
    requires d > 0
  {
    x / d
  }

  /** The smallest order that fits enough objects, or else the largest order. */
  ghost predicate Chosen(sizeClass: nat, c: Cache) {
    && c.objSize == ObjSize(sizeClass) > 0
    && c.order <= MAX_SLAB_ORDER
    && (c.order == MAX_SLAB_ORDER || Capacity(c.objSize, c.order) >= MIN_OBJS_PER_SLAB)
    && (forall k: nat :: k < c.order ==> Capacity(c.objSize, k) < MIN_OBJS_PER_SLAB)
    && c.objsPerSlab == if Capacity(c.objSize, c.order) == 0 then 1 else Capacity(c.objSize, c.order)
  }

  /** `Cache::init`. */
  method InitCache(sizeClass: nat) returns (c: Cache)
    requires ObjSize(sizeClass) > 0
    ensures Chosen(sizeClass, c)
  {
    hide Capacity, ObjSize;
    var objSize := ObjSize(sizeClass);
    var order: nat := 0;
    while true
      invariant order <= MAX_SLAB_ORDER && forall k: nat :: k < order ==> Capacity(objSize, k) < MIN_OBJS_PER_SLAB
      decreases MAX_SLAB_ORDER - order
    {
      var n := Capacity(objSize, order);
      if n >= MIN_OBJS_PER_SLAB || order >= MAX_SLAB_ORDER {
        return Cache(objSize, order, if n == 0 then 1 else n);
      }
      order := order + 1;
    }
  }

  /** A layout in which objects behind the header fill the span but for less than
      one object. */
  ghost predicate GoodCache(c: Cache) {
    && 16 <= c.objSize <= 2048 && c.objSize % SLAB_MIN_ALIGN == 0
    && c.order <= MAX_SLAB_ORDER && c.objsPerSlab >= MIN_OBJS_PER_SLAB
    && HEADER_BYTES <= Start(c.objSize) && Start(c.objSize) % SLAB_MIN_ALIGN == 0
    && Start(c.objSize) + c.objsPerSlab * c.objSize <= Span(c.order)
    && Span(c.order) < Start(c.objSize) + (c.objsPerSlab + 1) * c.objSize
  }

  /** The layout of each class: object size, start, order and number of objects. */
  const LAYOUT: seq<(nat, nat, nat, nat)> := [
    (16, 48, 0, 253), (16, 48, 0, 253), (32, 64, 0, 126), (64, 64, 0, 63), (96, 128, 0, 41), (128, 128, 0, 31),
    (192, 64, 0, 21), (256, 256, 0, 15), (384, 128, 0, 10), (512, 512, 1, 15), (768, 256, 1, 10),
    (1024, 1024, 2, 15), (1536, 512, 2, 10), (2048, 2048, 3, 15)]

  lemma Spans()
    ensures Span(0) == 4096 && Span(1) == 8192 && Span(2) == 16384 && Span(3) == 32768 && Span(4) == 65536
  {
    assert Pow2(1) == 2 && Pow2(2) == 4 && Pow2(3) == 8 && Pow2(4) == 16;
  }

  /** Alignment to a power of two. */
  lemma RoundPow2(x: nat, a: nat, k: nat)
    requires Pow2(k) == a
    ensures x <= AlignUp(x, a) < x + a && AlignUp(x, a) % a == 0
  {
    hide *;
    AlignUpPow2(x, k);
    var q, r := AlignedIsMultiple(AlignUp(x, a), k);
  }

  /** The mask of three times a power of two is no run of ones. */
  lemma RoundThree(x: nat, a: nat, k: nat) returns (h: nat)
    requires 3 * Pow2(k) == a
    ensures Pow2(k) * h <= x + a - 1 < Pow2(k) * h + Pow2(k) && AlignUp(x, a) == Pow2(k) * AndNot(h, 2)
  {
    h := Halved(x + a - 1, k);
    HalvedIs(x + a - 1, k);
    MaskSplit(x + a - 1, 2, k);
  }

  lemma Powers()
    ensures Pow2(4) == 16 && Pow2(5) == 32 && Pow2(6) == 64 && Pow2(7) == 128 && Pow2(8) == 256 && Pow2(9) == 512
    ensures Pow2(10) == 1024 && Pow2(11) == 2048
  {
    assert Pow2(4) == 16;
    assert Pow2(6) == 64;
    assert Pow2(8) == 256;
    assert Pow2(10) == 1024;
  }

  lemma Sizes(i: nat)
    requires i < |CLASSES|
    ensures ObjSize(CLASSES[i]) == LAYOUT[i].0
  {
    hide AlignUp, Pow2;
    Powers();
    RoundPow2(if CLASSES[i] < FREE_NODE_BYTES then FREE_NODE_BYTES else CLASSES[i], SLAB_MIN_ALIGN, 4);
  }

  lemma PowerStarts()
    ensures Start(16) == 48 && Start(32) == 64 && Start(64) == 64 && Start(128) == 128 && Start(256) == 256
    ensures Start(512) == 512 && Start(1024) == 1024 && Start(2048) == 2048
  {
    hide AlignUp, Pow2;
    Powers();
    RoundPow2(HEADER_BYTES, 16, 4);
    RoundPow2(HEADER_BYTES, 32, 5);
    RoundPow2(HEADER_BYTES, 64, 6);
    RoundPow2(HEADER_BYTES, 128, 7);
    RoundPow2(HEADER_BYTES, 256, 8);
    RoundPow2(HEADER_BYTES, 512, 9);
    RoundPow2(HEADER_BYTES, 1024, 10);
    RoundPow2(HEADER_BYTES, 2048, 11);
  }

  lemma OtherStarts()
    ensures Start(96) == 128 && Start(192) == 64 && Start(384) == 128 && Start(768) == 256 && Start(1536) == 512
  {
    hide AlignUp, Pow2;
    Powers();
    assert AndNot(4, 2) == 4 && AndNot(3, 2) == 1;
    var h5 := RoundThree(HEADER_BYTES, 96, 5);
    var h6 := RoundThree(HEADER_BYTES, 192, 6);
    var h7 := RoundThree(HEADER_BYTES, 384, 7);
    var h8 := RoundThree(HEADER_BYTES, 768, 8);
    var h9 := RoundThree(HEADER_BYTES, 1536, 9);
  }

  lemma Starts(i: nat)
    requires i < |CLASSES|
    ensures Start(LAYOUT[i].0) == LAYOUT[i].1
  {
    hide Start;
    PowerStarts();
    OtherStarts();
  }

  function SpanOf(order: nat): nat {
    if order == 0 then 4096 else if order == 1 then 8192 else if order == 2 then 16384 else 32768
  }

  /** What a row of the table must satisfy. */
  predicate RowOk(row: (nat, nat, nat, nat)) {
    && 16 <= row.0 <= 2048 && row.0 % 16 == 0 && 40 <= row.1 && row.1 % 16 == 0 && row.2 <= 3 && 8 <= row.3
    && row.1 + row.3 * row.0 <= SpanOf(row.2) < row.1 + (row.3 + 1) * row.0
    && (row.2 > 0 ==> SpanOf(row.2 - 1) < row.1 + 8 * row.0)
  }

  lemma RowsOk(i: nat)
    requires i < |CLASSES|
    ensures RowOk(LAYOUT[i]) && LAYOUT[i].0 >= CLASSES[i]
  {
    assert RowOk((16, 48, 0, 253)) && RowOk((32, 64, 0, 126)) && RowOk((64, 64, 0, 63)) && RowOk((96, 128, 0, 41));
    assert RowOk((128, 128, 0, 31)) && RowOk((192, 64, 0, 21)) && RowOk((256, 256, 0, 15)) && RowOk((384, 128, 0, 10));
    assert RowOk((512, 512, 1, 15)) && RowOk((768, 256, 1, 10)) && RowOk((1024, 1024, 2, 15));
    assert RowOk((1536, 512, 2, 10)) && RowOk((2048, 2048, 3, 15));
  }

  /** Division by bounds. */
  lemma Quotient(x: nat, d: nat, n: nat)
    requires d > 0
    ensures n * d <= x < (n + 1) * d ==> Div(x, d) == n
    ensures x < n * d ==> Div(x, d) < n
  {
    var q := x / d;
    assert x == q * d + x % d;
    Scale(q + 1, n, d);
    Scale(n + 1, q, d);
    Scale(n, q, d);
  }

  lemma Scale(a: nat, b: nat, d: nat)
    ensures a <= b ==> a * d <= b * d
  {
  }

  lemma CapacityRow(row: (nat, nat, nat, nat), k: nat)
    requires RowOk(row) && Start(row.0) == row.1 && k <= row.2
    ensures k == row.2 ==> Capacity(row.0, k) == row.3
    ensures k < row.2 ==> Capacity(row.0, k) < MIN_OBJS_PER_SLAB
  {
    hide Start, Span, Div;
    Spans();
    Quotient(if Span(k) > row.1 then Span(k) - row.1 else 0, row.0, if k == row.2 then row.3 else 8);
  }

  /** The chosen order is the one of the row. */
  lemma ChosenRow(sizeClass: nat, c: Cache, row: (nat, nat, nat, nat))
    requires Chosen(sizeClass, c) && RowOk(row) && c.objSize == row.0 && Start(row.0) == row.1
    ensures c == Cache(row.0, row.2, row.3)
  {
    hide ObjSize, Start, Capacity;
    CapacityRow(row, row.2);
    CapacityRow(row, if c.order < row.2 then c.order else row.2);
  }

  lemma RowIsGood(c: Cache, row: (nat, nat, nat, nat))
    requires RowOk(row) && c == Cache(row.0, row.2, row.3) && Start(row.0) == row.1
    ensures GoodCache(c)
  {
    hide Start, Span;
    Spans();
  }

  /** Every class gets exactly the layout in the table, and all of them are good. */
  lemma ClassLayout(i: nat, c: Cache)
    requires i < |CLASSES| && Chosen(CLASSES[i], c)
    ensures c == Cache(LAYOUT[i].0, LAYOUT[i].2, LAYOUT[i].3) && GoodCache(c) && c.objSize >= CLASSES[i]
  {
    hide ObjSize, Start, Span, RowOk, Capacity, GoodCache;
    Sizes(i);
    Starts(i);
    RowsOk(i);
    ChosenRow(CLASSES[i], c, LAYOUT[i]);
    RowIsGood(c, LAYOUT[i]);
  }
}
