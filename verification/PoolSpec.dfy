/**
 The pooled build of the memory manager (src/ats2/uttMemory.cpp with the define of line 45 off):
 bump allocation in a list of blocks that are kept for reuse, with checkpoints.
 `malloc` is a parameter: each call brings the address it returned, 0 for NULL.
 */
module PoolSpec {
  import opened Basics

  /** `align8(sizeof(uttMemoryHeader))`: four words of eight bytes. */
  const HEADER: nat := 32
  const DEFAULT_BUFFER_SIZE: nat := 65536

  function Align8(n: nat): nat { (n + 7) / 8 * 8 }

  datatype Block = Block(addr: nat, length: nat, cursor: nat)

  /** A piece handed out: `len` bytes at offset `off` of a block. */
  datatype Region = Region(block: nat, off: nat, len: nat)

  /** `current` is -1 while `head_` is NULL; `live` are the pieces handed out and not rewound. */
  datatype Pool = Pool(blocks: seq<Block>, current: int, bufferSize: nat, live: set<Region>)

  /** `savedCurrent` and `savedCursor`; address 0 is NULL. */
  datatype Status = Status(addr: nat, cursor: nat)

  function Empty(bufferSize: nat): Pool { Pool([], -1, bufferSize, {}) }

  // ---------- what holds of a pool ----------

  predicate BlockOk(b: Block, bufferSize: nat) {
    b.addr > 0 && b.addr % 8 == 0 && HEADER <= b.cursor <= b.length && b.cursor % 8 == 0 && bufferSize <= b.length
  }

  predicate Apart(a: Block, b: Block) {
    a.addr + a.length <= b.addr || b.addr + b.length <= a.addr
  }

  predicate Overlap(r: Region, q: Region) {
    r.block == q.block && r.off < q.off + q.len && q.off < r.off + r.len
  }

  ghost predicate RegionOk(p: Pool, r: Region) {
    && r.block <= p.current < |p.blocks| && r.len > 0 && r.len % 8 == 0 && r.off % 8 == 0
    && HEADER <= r.off && r.off + r.len <= p.blocks[r.block].cursor
  }

  ghost predicate BlocksOk(p: Pool) {
    && (forall i {:trigger p.blocks[i]} :: 0 <= i < |p.blocks| ==> BlockOk(p.blocks[i], p.bufferSize))
    && (forall i, j {:trigger p.blocks[i], p.blocks[j]} :: 0 <= i < j < |p.blocks| ==> Apart(p.blocks[i], p.blocks[j]))
  }

  ghost predicate LiveOk(p: Pool) {
    && (forall r {:trigger r in p.live} :: r in p.live ==> RegionOk(p, r))
    && (forall r, q {:trigger r in p.live, q in p.live} :: r in p.live && q in p.live && r != q ==> !Overlap(r, q))
  }

  ghost predicate Valid(p: Pool) {
    && (if p.blocks == [] then p.current == -1 else 0 <= p.current < |p.blocks|)
    && (if p.blocks == [] && p.bufferSize == 0 then true else p.bufferSize >= HEADER)
    && BlocksOk(p) && LiveOk(p)
  }

  /** What `malloc` promises of an address that is not NULL: aligned, and apart from every block held. */
  ghost predicate Fresh(p: Pool, addr: nat, size: nat) {
    addr > 0 && addr % 8 == 0
    && forall i {:trigger p.blocks[i]} :: 0 <= i < |p.blocks| ==> Apart(p.blocks[i], Block(addr, size, HEADER))
  }

  // ---------- operations ----------

  function SizeUsed(bufferSize: nat): nat { if bufferSize == 0 then DEFAULT_BUFFER_SIZE else bufferSize }

  /** `header`: the first block is made on first use. */
  function Header(p: Pool, m: nat): Pool {
    if p.blocks != [] then p
    else
      var size := SizeUsed(p.bufferSize);
      if m == 0 then p.(bufferSize := size)
      else p.(bufferSize := size, blocks := [Block(m, size, HEADER)], current := 0)
  }

  /** `extend`: on to the next block, kept or new; a kept block is taken whatever its length. */
  function Extend(p: Pool, size: nat, m: nat): Option<Pool>
    requires 0 <= p.current < |p.blocks|
  {
    var next := p.current + 1;
    if next < |p.blocks| then Some(p.(current := next, blocks := p.blocks[next := p.blocks[next].(cursor := HEADER)]))
    else if m == 0 then None
    else Some(p.(current := next, blocks := p.blocks + [Block(m, size, HEADER)]))
  }

  function Bump(p: Pool, size: nat): (Pool, Option<Region>)
    requires 0 <= p.current < |p.blocks|
  {
    var b := p.blocks[p.current];
    var r := Region(p.current, b.cursor, size);
    (p.(blocks := p.blocks[p.current := b.(cursor := b.cursor + size)], live := p.live + {r}), Some(r))
  }

  /** The difference is unsigned: for a block size below a header it is huge, and no request exceeds it. */
  predicate Oversized(p: Pool, size: nat) { p.bufferSize >= HEADER && size > p.bufferSize - HEADER }

  /** Unsigned too: a block whose cursor has passed its end seems to have room for everything. */
  predicate Lacks(b: Block, size: nat) { b.cursor <= b.length && size > b.length - b.cursor }

  /** The first of `alloc`'s two extensions, for an oversized request. */
  function FirstExtension(p: Pool, size: nat, m: nat): Option<Pool>
    requires 0 <= p.current < |p.blocks|
  {
    if Oversized(p, size) then Extend(p, size + HEADER, m) else Some(p)
  }

  /** `alloc` once there is a block and the size is rounded and positive. */
  function Place(p: Pool, size: nat, m: nat): (Pool, Option<Region>)
    requires 0 <= p.current < |p.blocks|
  {
    var q := FirstExtension(p, size, m);
    if q.None? then (p, None)
    else if Lacks(q.value.blocks[q.value.current], size) then
      var t := Extend(q.value, p.bufferSize, m);
      if t.None? then (q.value, None) else Bump(t.value, size)
    else Bump(q.value, size)
  }

  /** `alloc`: `m0` answers the first `malloc`, `m1` that of an extension. */
  function Alloc(p: Pool, size: nat, m0: nat, m1: nat): (Pool, Option<Region>) {
    var h := Header(p, m0);
    if !(0 <= h.current < |h.blocks|) then (h, None)
    else if Align8(size) == 0 then (h, None)
    else Place(h, Align8(size), m1)
  }

  predicate Below(r: Region, i: int, cursor: nat) {
    r.block < i || (r.block == i && r.off + r.len <= cursor)
  }

  function Rewind(p: Pool, i: nat, cursor: nat): Pool
    requires i < |p.blocks|
  {
    p.(current := i, blocks := p.blocks[i := p.blocks[i].(cursor := cursor)],
       live := set r | r in p.live && Below(r, i, cursor))
  }

  function Clear(p: Pool): Pool {
    if p.blocks == [] then p else Rewind(p, 0, HEADER)
  }

  function GetStatus(p: Pool): Status {
    if 0 <= p.current < |p.blocks| then Status(p.blocks[p.current].addr, p.blocks[p.current].cursor) else Status(0, 0)
  }

  /** The block at an address among the first `n`. */
  function Find(blocks: seq<Block>, addr: nat, i: nat, n: nat): (r: Option<nat>)
    requires i <= n <= |blocks|
    ensures r.Some? ==> i <= r.value < n && blocks[r.value].addr == addr
    ensures r.None? ==> forall k :: i <= k < n ==> blocks[k].addr != addr
    decreases n - i
  {
    if i == n then None else if blocks[i].addr == addr then Some(i) else Find(blocks, addr, i + 1, n)
  }

  /** `setStatus`: only a position that is aligned, in use, and not past the current one is gone back to. */
  function SetStatus(p: Pool, st: Status): (Pool, bool)
    requires p.current < |p.blocks|
  {
    if p.blocks == [] || p.current < 0 then (p, st == Status(0, 0))
    else if st == Status(0, 0) then (Clear(p), true)
    else
      var f := Find(p.blocks, st.addr, 0, p.current + 1);
      if f.None? || st.cursor % 8 != 0 || st.cursor < HEADER || st.cursor > p.blocks[f.value].cursor then (p, false)
      else (Rewind(p, f.value, st.cursor), true)
  }

  function FreeUnused(p: Pool): Pool
    requires p.current < |p.blocks|
  {
    if p.current < 0 then p else p.(blocks := p.blocks[..p.current + 1])
  }
}
