/** Demand paging to a swap file (vm.c allocuvm and handle_pagedout, proc.c allocproc): a
    process that grows and takes paged-out faults, with no copy-on-write pages, sees one flat
    memory. Virtual pages and swap-file offsets are counted in pages of PGSIZE bytes.

    The page-replacement policy and kalloc's choice of frame are left open: every method below
    is proved for all of their choices. */
module Paging {
  import opened Common
  import opened PageData
  import FileData
  import opened SwapFile

  const MAX_PSYC_PAGES := 16

  datatype Pte = Pte(frame: nat, present: bool, writable: bool, user: bool, pagedOut: bool)

  /** struct page: the fields that place a page. */
  datatype Slot = Slot(isused: bool, vpn: nat, swapOffset: int)

  const NoSlot := Slot(false, 0, 0)

  type PageTable = map<nat, Pte>

  // ----- invariants, one for each group of fields

  predicate Resident(ram: seq<Slot>, n: nat, v: nat) {
    exists i :: 0 <= i < n <= |ram| && ram[i].vpn == v
  }

  predicate Distinct(slots: seq<Slot>, n: nat) {
    n <= |slots| && forall i, j :: 0 <= i < j < n ==> slots[i].vpn != slots[j].vpn
  }

  /** Used slots come first, and name different pages. */
  predicate Table(slots: seq<Slot>, n: nat) {
    && |slots| == MAX_PSYC_PAGES && n <= MAX_PSYC_PAGES
    && (forall i :: 0 <= i < MAX_PSYC_PAGES ==> (slots[i].isused <==> i < n))
    && Distinct(slots, n)
  }

  predicate Placed(pte: Pte, v: nat, ram: seq<Slot>, numRam: nat, swp: seq<Slot>, numSwap: nat) {
    && pte.writable && pte.user
    && (pte.present <==> !pte.pagedOut)
    && (if pte.present then Resident(ram, numRam, v) else Resident(swp, numSwap, v))
  }

  /** Each mapped page is in exactly one of ramPages (PTE_P) and swappedPages (PTE_PG), and
      nothing is swapped while RAM slots are free. */
  predicate SlotsOk(pt: PageTable, ram: seq<Slot>, numRam: nat, swp: seq<Slot>, numSwap: nat) {
    && Table(ram, numRam)
    && Table(swp, numSwap)
    && (numSwap > 0 ==> numRam == MAX_PSYC_PAGES)
    && (forall i :: 0 <= i < numRam ==> ram[i].vpn in pt && pt[ram[i].vpn].present)
    && (forall i :: 0 <= i < numSwap ==> swp[i].vpn in pt && !pt[swp[i].vpn].present)
    && (forall v :: v in pt ==> Placed(pt[v], v, ram, numRam, swp, numSwap))
  }

  /** Present pages have a frame each. */
  predicate FramesOk(pt: PageTable, frames: map<nat, Page>, freeFrames: set<nat>) {
    && frames.Keys !! freeFrames
    && (forall v :: v in pt && pt[v].present ==> pt[v].frame in frames)
    && (forall u, v :: u in pt && v in pt && u != v && pt[u].present && pt[v].present ==>
          pt[u].frame != pt[v].frame)
  }

  function Range(lo: nat, hi: nat): seq<nat>
    requires lo <= hi
  {
    seq(hi - lo, i requires i >= 0 => lo + i)
  }

  predicate InUse(swp: seq<Slot>, numSwap: nat, o: int) {
    exists i :: 0 <= i < numSwap <= |swp| && swp[i].swapOffset == o
  }

  /** Offsets never used are the ones at and past the end of the file, and lead the free list
      in order. */
  predicate FreeListOk(free: seq<nat>, fileSize: nat) {
    && fileSize <= MAX_PSYC_PAGES && MAX_PSYC_PAGES - fileSize <= |free|
    && free[..MAX_PSYC_PAGES - fileSize] == Range(fileSize, MAX_PSYC_PAGES)
    && (forall i :: MAX_PSYC_PAGES - fileSize <= i < |free| ==> free[i] < fileSize)
    && NoDuplicates(free)
  }

  /** Free and used offsets partition the MAX_PSYC_PAGES pages of the swap file. */
  predicate OffsetsOk(swp: seq<Slot>, numSwap: nat, free: seq<nat>, fileSize: nat) {
    && FreeListOk(free, fileSize)
    && numSwap <= |swp| && |free| + numSwap == MAX_PSYC_PAGES
    && (forall i :: 0 <= i < numSwap ==> 0 <= swp[i].swapOffset < fileSize && swp[i].swapOffset !in free)
    && (forall i, j :: 0 <= i < j < numSwap ==> swp[i].swapOffset != swp[j].swapOffset)
    && (forall o :: 0 <= o < MAX_PSYC_PAGES ==> o in free || InUse(swp, numSwap, o))
  }

  // ----- contents

  /** The first slot that names page v, as getSwappedPageIndex searches for it. */
  function FindSlot(slots: seq<Slot>, v: nat): (r: int)
    ensures -1 <= r < |slots|
  {
    if slots == [] then -1
    else
      var n := |slots| - 1;
      var r := FindSlot(slots[..n], v);
      if r >= 0 then r else if slots[n].vpn == v then n else -1
  }

  lemma {:induction false} FindsFirst(slots: seq<Slot>, v: nat)
    ensures
      var r := FindSlot(slots, v);
      && (r >= 0 ==> slots[r].vpn == v)
      && forall i :: 0 <= i < (if r < 0 then |slots| else r) ==> slots[i].vpn != v
  {
    if slots != [] {
      FindsFirst(slots[..|slots|-1], v);
    }
  }

  lemma FoundAt(slots: seq<Slot>, n: nat, i: nat)
    requires Distinct(slots, n) && i < n
    ensures FindSlot(slots, slots[i].vpn) == i
  {
    FindsFirst(slots, slots[i].vpn);
  }

  function SizeAfter(fileSize: nat, o: nat): nat {
    if o == fileSize then fileSize + 1 else fileSize
  }

  // ----- page-table entries

  function PagedOut(p: Pte): Pte {
    p.(frame := 0, pagedOut := true, present := false)
  }

  function PagedIn(p: Pte, frame: nat): Pte {
    p.(frame := frame, present := true, writable := true, user := true, pagedOut := false)
  }

  function Mapped(frame: nat): Pte {
    Pte(frame, true, true, true, false)
  }

  // ----- preservation: a new page v into a free RAM slot

  lemma SlotsAdd(pt: PageTable, ram: seq<Slot>, n: nat, swp: seq<Slot>, v: nat, f: nat)
    requires SlotsOk(pt, ram, n, swp, 0) && n < MAX_PSYC_PAGES && v !in pt
    ensures SlotsOk(pt[v := Mapped(f)], ram[n := Slot(true, v, -1)], n + 1, swp, 0)
  {
    var ram' := ram[n := Slot(true, v, -1)];
    assert ram'[n].vpn == v;
    forall u | u in pt
      ensures Resident(ram', n + 1, u)
    {
      var i :| 0 <= i < n && ram[i].vpn == u;
      assert ram'[i].vpn == u;
    }
  }

  // ----- preservation: page v takes RAM slot i, whose page goes to swap slot j

  /** Page v leaves swap slot j (or is new and j is the first free swap slot) for RAM slot i. */
  lemma SlotsExchange(pt: PageTable, ram: seq<Slot>, swp: seq<Slot>, numSwap: nat, numSwap': nat,
                      v: nat, i: nat, j: nat, o: nat, pte: Pte)
    requires SlotsOk(pt, ram, MAX_PSYC_PAGES, swp, numSwap)
    requires i < MAX_PSYC_PAGES && j < numSwap' <= MAX_PSYC_PAGES
    requires if v in pt then j < numSwap == numSwap' && swp[j].vpn == v
                        else j == numSwap && numSwap' == numSwap + 1
    requires pte.present && !pte.pagedOut && pte.writable && pte.user
    ensures SlotsOk(pt[v := pte][ram[i].vpn := PagedOut(pt[ram[i].vpn])],
                    ram[i := Slot(true, v, -1)], MAX_PSYC_PAGES, swp[j := Slot(true, ram[i].vpn, o)], numSwap')
  {
    var w := ram[i].vpn;
    var pt', ram', swp' := pt[v := pte][w := PagedOut(pt[w])], ram[i := Slot(true, v, -1)], swp[j := Slot(true, w, o)];
    TableReplace(ram, MAX_PSYC_PAGES, MAX_PSYC_PAGES, i, Slot(true, v, -1));
    TableReplace(swp, numSwap, numSwap', j, Slot(true, w, o));
    forall u | u in pt'
      ensures Placed(pt'[u], u, ram', MAX_PSYC_PAGES, swp', numSwap')
    {
      if u != v && u != w {
        if pt[u].present {
          ResidentKept(ram, MAX_PSYC_PAGES, MAX_PSYC_PAGES, i, Slot(true, v, -1), u);
        } else {
          ResidentKept(swp, numSwap, numSwap', j, Slot(true, w, o), u);
        }
      }
    }
  }

  lemma TableReplace(slots: seq<Slot>, n: nat, n': nat, k: nat, slot: Slot)
    requires Table(slots, n) && k < n' <= MAX_PSYC_PAGES && slot.isused
    requires n' == n || (n' == n + 1 && k == n)
    requires forall i :: 0 <= i < n ==> slots[i].vpn != slot.vpn
    ensures Table(slots[k := slot], n') && Resident(slots[k := slot], n', slot.vpn)
  {
    assert slots[k := slot][k].vpn == slot.vpn;
  }

  lemma ResidentKept(slots: seq<Slot>, n: nat, n': nat, k: nat, slot: Slot, u: nat)
    requires Table(slots, n) && k < n' <= MAX_PSYC_PAGES && n <= n'
    requires Resident(slots, n, u) && (k < n ==> slots[k].vpn != u)
    ensures Resident(slots[k := slot], n', u)
  {
    var i :| 0 <= i < n && slots[i].vpn == u;
    assert slots[k := slot][i].vpn == u;
  }

  lemma FramesExchange(pt: PageTable, frames: map<nat, Page>, freeFrames: set<nat>, rest: set<nat>,
                       v: nat, w: nat, pte: Pte, data: Page)
    requires FramesOk(pt, frames, freeFrames) && pte.frame in freeFrames && pte.present
    requires rest <= freeFrames - {pte.frame}
    requires w in pt && pt[w].present && w != v && (v in pt ==> !pt[v].present)
    ensures FramesOk(pt[v := pte][w := PagedOut(pt[w])],
                     frames[pte.frame := data] - {pt[w].frame}, rest + {pt[w].frame})
  {}

  // ----- preservation: the offsets

  /** Taking the head offset for a new swap slot. The head is at most the file size, so the
      write is never refused. */
  lemma OffsetsTake(swp: seq<Slot>, numSwap: nat, free: seq<nat>, fileSize: nat, w: nat)
    requires OffsetsOk(swp, numSwap, free, fileSize) && numSwap < MAX_PSYC_PAGES == |swp|
    ensures free != [] && free[0] <= fileSize && free[0] < MAX_PSYC_PAGES
    ensures OffsetsOk(swp[numSwap := Slot(true, w, free[0])], numSwap + 1, free[1..],
                      SizeAfter(fileSize, free[0]))
  {
    forall o | 0 <= o < MAX_PSYC_PAGES
      ensures o in free || InUseBut(swp, numSwap + 1, numSwap, o)
    {
      if o !in free {
        var k :| 0 <= k < numSwap && swp[k].swapOffset == o;
      }
    }
    TakeFor(swp, numSwap + 1, free, fileSize, numSwap, w);
  }

  lemma TakeHead(free: seq<nat>, fileSize: nat)
    requires FreeListOk(free, fileSize) && free != []
    ensures free[0] <= fileSize && free[0] < MAX_PSYC_PAGES
    ensures free[0] !in free[1..]
    ensures FreeListOk(free[1..], SizeAfter(fileSize, free[0]))
  {
    var m := MAX_PSYC_PAGES - fileSize;
    if m > 0 {
      assert free[0] == free[..m][0] == fileSize;
      assert free[1..][..m-1] == free[..m][1..] == Range(fileSize + 1, MAX_PSYC_PAGES);
      assert forall i :: 0 <= i < |free[1..]| ==> free[1..][i] == free[i+1];
    }
  }

  /** Giving back the offset of swap slot j and taking the head offset for it instead. */
  lemma OffsetsRecycle(swp: seq<Slot>, numSwap: nat, free: seq<nat>, fileSize: nat, j: nat, w: nat)
    requires OffsetsOk(swp, numSwap, free, fileSize) && j < numSwap && swp[j].swapOffset >= 0
    ensures
      var free1 := free + [swp[j].swapOffset as nat];
      && free1[0] <= fileSize && free1[0] < MAX_PSYC_PAGES
      && OffsetsOk(swp[j := Slot(true, w, free1[0])], numSwap, free1[1..], SizeAfter(fileSize, free1[0]))
  {
    var free1 := free + [swp[j].swapOffset as nat];
    assert free1[..MAX_PSYC_PAGES - fileSize] == free[..MAX_PSYC_PAGES - fileSize];
    assert FreeListOk(free1, fileSize);
    forall i | 0 <= i < numSwap && i != j
      ensures swp[i].swapOffset !in free1
    {}
    forall o | 0 <= o < MAX_PSYC_PAGES
      ensures o in free1 || InUseBut(swp, numSwap, j, o)
    {
      if o in free {
        var k :| 0 <= k < |free| && free[k] == o;
        assert free1[k] == o;
      } else {
        var k :| 0 <= k < numSwap && swp[k].swapOffset == o;
        assert free1[|free|] == swp[j].swapOffset;
      }
    }
    TakeFor(swp, numSwap, free1, fileSize, j, w);
  }

  predicate InUseBut(swp: seq<Slot>, numSwap: nat, j: nat, o: int) {
    exists i :: 0 <= i < numSwap <= |swp| && i != j && swp[i].swapOffset == o
  }

  /** Slot j has no offset and every other offset is accounted for: give it the head of the
      free list. */
  lemma TakeFor(swp: seq<Slot>, numSwap: nat, free: seq<nat>, fileSize: nat, j: nat, w: nat)
    requires FreeListOk(free, fileSize) && free != [] && j < numSwap <= |swp|
    requires |free| - 1 + numSwap == MAX_PSYC_PAGES
    requires forall i :: 0 <= i < numSwap && i != j ==> 0 <= swp[i].swapOffset < fileSize && swp[i].swapOffset !in free
    requires forall i, k :: 0 <= i < k < numSwap && i != j && k != j ==> swp[i].swapOffset != swp[k].swapOffset
    requires forall o :: 0 <= o < MAX_PSYC_PAGES ==> o in free || InUseBut(swp, numSwap, j, o)
    ensures free[0] <= fileSize && free[0] < MAX_PSYC_PAGES
    ensures OffsetsOk(swp[j := Slot(true, w, free[0])], numSwap, free[1..], SizeAfter(fileSize, free[0]))
  {
    var swp' := swp[j := Slot(true, w, free[0])];
    TakeHead(free, fileSize);
    forall o | 0 <= o < MAX_PSYC_PAGES
      ensures o in free[1..] || InUse(swp', numSwap, o)
    {
      if o == free[0] {
        assert swp'[j].swapOffset == o;
      } else if o in free {
        var k :| 0 <= k < |free| && free[k] == o;
        assert free[1..][k-1] == o;
      } else {
        var k :| 0 <= k < numSwap && k != j && swp[k].swapOffset == o;
        assert swp'[k].swapOffset == o;
      }
    }
  }

  // ----- the whole paging state of a process

  datatype Image = Image(
    pt: PageTable, frames: map<nat, Page>, freeFrames: set<nat>,
    ram: seq<Slot>, numRam: nat, swp: seq<Slot>, numSwap: nat,
    free: seq<nat>, file: seq<Page>)

  predicate Good(m: Image) {
    match m
    case Image(pt, frames, freeFrames, ram, numRam, swp, numSwap, free, file) =>
      && SlotsOk(pt, ram, numRam, swp, numSwap)
      && FramesOk(pt, frames, freeFrames)
      && OffsetsOk(swp, numSwap, free, |file|)
  }

  /** The mapped pages are those below a size of n pages. */
  ghost predicate Holds(m: Image, n: nat) {
    match m
    case Image(pt, _, _, _, numRam, _, numSwap, _, _) =>
      (forall v: nat :: v in pt <==> v < n) && numRam + numSwap == n
  }

  /** What process memory holds at page v. */
  function Content(m: Image, v: nat): Page
    requires v in m.pt
  {
    if m.pt[v].present then
      if m.pt[v].frame in m.frames then m.frames[m.pt[v].frame] else ZeroPage()
    else
      var i := FindSlot(m.swp, v);
      if 0 <= i && 0 <= m.swp[i].swapOffset < |m.file| then m.file[m.swp[i].swapOffset] else ZeroPage()
  }

  function View(m: Image): map<nat, Page> {
    map v | v in m.pt :: Content(m, v)
  }

  /** m' shows what m shows, but for page v, which holds data. */
  ghost predicate Shows(m': Image, m: Image, v: nat, data: Page) {
    && m'.pt.Keys == m.pt.Keys + {v}
    && forall u :: u in m'.pt ==> Content(m', u) == if u == v then data else Content(m, u)
  }

  lemma ShowsView(m': Image, m: Image, v: nat, data: Page)
    requires Shows(m', m, v, data)
    ensures View(m') == View(m)[v := data]
  {}

  // ----- a store to a page that is present

  function Stored(m: Image, v: nat, data: Page): Image
    requires v in m.pt
  {
    m.(frames := m.frames[m.pt[v].frame := data])
  }

  lemma StoreGood(m: Image, n: nat, v: nat, data: Page)
    requires Good(m) && Holds(m, n) && v in m.pt && m.pt[v].present
    ensures Good(Stored(m, v, data)) && Holds(Stored(m, v, data), n)
    ensures View(Stored(m, v, data)) == View(m)[v := data]
  {
    StoreView(m, v, data);
  }

  lemma StoreView(m: Image, v: nat, data: Page)
    requires FramesOk(m.pt, m.frames, m.freeFrames) && v in m.pt && m.pt[v].present
    ensures FramesOk(m.pt, Stored(m, v, data).frames, m.freeFrames)
    ensures View(Stored(m, v, data)) == View(m)[v := data]
  {
    forall u | u in m.pt
      ensures Content(Stored(m, v, data), u) == if u == v then data else Content(m, u)
    {}
  }

  // ----- a new page while RAM slots are free

  function Added(m: Image, v: nat, f: nat): Image
    requires m.numRam < |m.ram|
  {
    m.(pt := m.pt[v := Mapped(f)], frames := m.frames[f := ZeroPage()], freeFrames := m.freeFrames - {f},
       ram := m.ram[m.numRam := Slot(true, v, -1)], numRam := m.numRam + 1)
  }

  lemma AddGood(m: Image, v: nat, f: nat)
    requires Good(m) && Holds(m, v) && m.numRam < MAX_PSYC_PAGES && f in m.freeFrames
    ensures |m.ram| == MAX_PSYC_PAGES && Good(Added(m, v, f)) && Holds(Added(m, v, f), v + 1)
    ensures View(Added(m, v, f)) == View(m)[v := ZeroPage()]
  {
    SlotsAdd(m.pt, m.ram, m.numRam, m.swp, v, f);
    AddView(m, v, f);
  }

  lemma AddView(m: Image, v: nat, f: nat)
    requires FramesOk(m.pt, m.frames, m.freeFrames) && f in m.freeFrames && v !in m.pt && m.numRam < |m.ram|
    ensures
      var m' := Added(m, v, f);
      FramesOk(m'.pt, m'.frames, m'.freeFrames) && View(m') == View(m)[v := ZeroPage()]
  {
    var m' := Added(m, v, f);
    assert FramesOk(m'.pt, m'.frames, m'.freeFrames);
    assert Content(m', v) == ZeroPage();
    forall u | u in m.pt
      ensures Content(m', u) == Content(m, u)
    {
      assert m'.pt[u] == m.pt[u];
    }
  }

  // ----- an exchange: one page into RAM, one out to the swap file

  /** How the exchange goes: page v, with entry pte and contents data, takes RAM slot i. The
      page that was there is written to offset free[0] and its record goes to swap slot j.
      `rest` are the free frames before the evicted page's frame is added to them. */
  datatype Plan = Plan(v: nat, pte: Pte, data: Page, i: nat, j: nat, free: seq<nat>, numSwap: nat, rest: set<nat>)

  predicate Feasible(m: Image, x: Plan) {
    && |m.ram| == |m.swp| == MAX_PSYC_PAGES && x.i < MAX_PSYC_PAGES && x.j < MAX_PSYC_PAGES
    && x.free != [] && x.free[0] <= |m.file| && x.free[0] < MAX_PSYC_PAGES
    && Evictable(m, x.v, m.ram[x.i].vpn)
  }

  /** Page w can be evicted for page v. */
  predicate Evictable(m: Image, v: nat, w: nat) {
    w != v && w in m.pt && m.pt[w].present && m.pt[w].frame in m.frames
  }

  function Exchanged(m: Image, x: Plan): Image
    requires Feasible(m, x)
  {
    var w := m.ram[x.i].vpn;
    var g := m.pt[w].frame;
    Image(m.pt[x.v := x.pte][w := PagedOut(m.pt[w])],
          m.frames[x.pte.frame := x.data] - {g}, x.rest + {g}, m.ram[x.i := Slot(true, x.v, -1)], m.numRam,
          m.swp[x.j := Slot(true, w, x.free[0])], x.numSwap, x.free[1..], FileWith(m.file, x.free[0], m.frames[g]))
  }

  /** The other swapped pages: in the file, and not at the offset written. */
  predicate Untouched(swp: seq<Slot>, numSwap: nat, j: nat, o: nat, fileSize: nat) {
    forall k :: 0 <= k < numSwap <= |swp| && k != j ==> 0 <= swp[k].swapOffset < fileSize && swp[k].swapOffset != o
  }

  /** The exchange fits the tables, the frames and the page table. */
  predicate Moves(m: Image, x: Plan) {
    match x
    case Plan(v, pte, _, i, j, free, numSwap, rest) =>
      && Feasible(m, x)
      && m.numRam == MAX_PSYC_PAGES
      && pte.present && !pte.pagedOut && pte.writable && pte.user
      && pte.frame in m.freeFrames && rest <= m.freeFrames - {pte.frame}
      && (if v in m.pt then j < m.numSwap == numSwap && m.swp[j].vpn == v && !m.pt[v].present
                       else j == m.numSwap && numSwap == m.numSwap + 1)
  }

  /** And it fits the swap file. */
  predicate Offsets(m: Image, x: Plan) {
    match x
    case Plan(v, pte, _, i, j, free, numSwap, rest) =>
      && Feasible(m, x)
      && Untouched(m.swp, m.numSwap, j, free[0], |m.file|)
      && OffsetsOk(m.swp[j := Slot(true, m.ram[i].vpn, free[0])], numSwap, free[1..],
                   SizeAfter(|m.file|, free[0]))
  }

  lemma ExchangeGood(m: Image, x: Plan)
    requires Good(m) && Moves(m, x) && Offsets(m, x)
    ensures Good(Exchanged(m, x))
  {
    SlotsExchange(m.pt, m.ram, m.swp, m.numSwap, x.numSwap, x.v, x.i, x.j, x.free[0], x.pte);
    FramesExchange(m.pt, m.frames, m.freeFrames, x.rest, x.v, m.ram[x.i].vpn, x.pte, x.data);
    assert |Exchanged(m, x).file| == SizeAfter(|m.file|, x.free[0]);
  }

  /** A page other than v and the evicted one. */
  lemma ContentElsewhere(m: Image, x: Plan, u: nat)
    requires SlotsOk(m.pt, m.ram, MAX_PSYC_PAGES, m.swp, m.numSwap) && FramesOk(m.pt, m.frames, m.freeFrames)
    requires Moves(m, x) && Untouched(m.swp, m.numSwap, x.j, x.free[0], |m.file|)
    requires Table(Exchanged(m, x).swp, x.numSwap)
    requires u in m.pt && u != x.v && u != m.ram[x.i].vpn
    ensures Content(Exchanged(m, x), u) == Content(m, u)
  {
    assert Exchanged(m, x).pt[u] == m.pt[u];
    if !m.pt[u].present {
      var k :| 0 <= k < m.numSwap && m.swp[k].vpn == u;
      SwappedElsewhere(m, x, k);
    }
  }

  lemma ContentMoved(m: Image, x: Plan)
    requires FramesOk(m.pt, m.frames, m.freeFrames)
    requires Moves(m, x) && Table(Exchanged(m, x).swp, x.numSwap)
    ensures Content(Exchanged(m, x), x.v) == x.data
    ensures Content(Exchanged(m, x), m.ram[x.i].vpn) == Content(m, m.ram[x.i].vpn)
  {
    FoundAt(Exchanged(m, x).swp, x.numSwap, x.j);
  }

  lemma SwappedElsewhere(m: Image, x: Plan, k: nat)
    requires Feasible(m, x) && k < m.numSwap && k != x.j && m.numSwap <= x.numSwap
    requires Table(m.swp, m.numSwap) && Table(Exchanged(m, x).swp, x.numSwap)
    requires Untouched(m.swp, m.numSwap, x.j, x.free[0], |m.file|)
    ensures
      var m', u := Exchanged(m, x), m.swp[k].vpn;
      && FindSlot(m.swp, u) == k == FindSlot(m'.swp, u) && m'.swp[k] == m.swp[k]
      && 0 <= m.swp[k].swapOffset < |m.file| <= |m'.file|
      && m'.file[m.swp[k].swapOffset] == m.file[m.swp[k].swapOffset]
  {
    FoundAt(m.swp, m.numSwap, k);
    FoundAt(Exchanged(m, x).swp, x.numSwap, k);
  }

  /** The exchange changes what the process sees at v only. */
  lemma ExchangeView(m: Image, x: Plan)
    requires SlotsOk(m.pt, m.ram, MAX_PSYC_PAGES, m.swp, m.numSwap) && FramesOk(m.pt, m.frames, m.freeFrames)
    requires Moves(m, x) && Untouched(m.swp, m.numSwap, x.j, x.free[0], |m.file|)
    requires Table(Exchanged(m, x).swp, x.numSwap)
    ensures View(Exchanged(m, x)) == View(m)[x.v := x.data]
  {
    var m', w := Exchanged(m, x), m.ram[x.i].vpn;
    ContentMoved(m, x);
    forall u | u in m.pt && u != x.v && u != w
      ensures Content(m', u) == Content(m, u)
    {
      ContentElsewhere(m, x, u);
    }
    assert m'.pt.Keys == m.pt.Keys + {x.v};
    ShowsView(m', m, x.v, x.data);
  }

  // ----- a paged-out fault

  /** The free list once the faulting page has given its offset back. */
  function GivenBack(m: Image, j: nat): seq<nat>
    requires j < |m.swp| && m.swp[j].swapOffset >= 0
  {
    m.free + [m.swp[j].swapOffset]
  }

  function FaultPlan(m: Image, v: nat, i: nat, j: nat, f: nat, node: nat): Plan
    requires v in m.pt && j < |m.swp| && 0 <= m.swp[j].swapOffset < |m.file|
  {
    Plan(v, PagedIn(m.pt[v], f), m.file[m.swp[j].swapOffset], i, j, GivenBack(m, j), m.numSwap,
         m.freeFrames - {f} - {node})
  }

  /** Page v is in the swap file, in swap slot j. */
  predicate Faulting(m: Image, v: nat, j: nat) {
    Good(m) && v in m.pt && j < m.numSwap && m.swp[j].vpn == v
  }

  /** What handle_pagedout relies on: RAM is full, the search for v ends at slot j, its offset is
      in the file, whatever page the policy names can go, and the offset for it is accepted. */
  predicate ReadyToFault(m: Image, v: nat, j: nat) {
    match m
    case Image(pt, frames, freeFrames, ram, numRam, swp, numSwap, _, file) =>
      && numRam == |ram| == |swp| == MAX_PSYC_PAGES && j < MAX_PSYC_PAGES
      && v in pt && FindSlot(swp, v) == j && 0 <= swp[j].swapOffset < |file|
      && GivenBack(m, j)[0] <= |file| && GivenBack(m, j)[0] < MAX_PSYC_PAGES
      && freeFrames !! frames.Keys
      && forall i :: 0 <= i < MAX_PSYC_PAGES ==> Evictable(m, v, ram[i].vpn)
  }

  lemma FaultSlot(m: Image, v: nat) returns (j: nat)
    requires Good(m) && v in m.pt && !m.pt[v].present
    ensures Faulting(m, v, j)
  {
    j :| 0 <= j < m.numSwap && m.swp[j].vpn == v;
  }

  lemma FaultReady(m: Image, v: nat, j: nat)
    requires Faulting(m, v, j)
    ensures ReadyToFault(m, v, j)
  {
    FoundAt(m.swp, m.numSwap, j);
    OffsetsRecycle(m.swp, m.numSwap, m.free, |m.file|, j, 0);
  }

  /** A fault keeps the invariants and is invisible to the process. */
  lemma FaultGood(m: Image, n: nat, v: nat, i: nat, j: nat, f: nat, node: nat)
    requires Faulting(m, v, j) && Holds(m, n) && ReadyToFault(m, v, j)
    requires i < MAX_PSYC_PAGES && f in m.freeFrames
    ensures
      var x := FaultPlan(m, v, i, j, f, node);
      && Feasible(m, x) && Good(Exchanged(m, x)) && Holds(Exchanged(m, x), n)
      && View(Exchanged(m, x)) == View(m)
      && Exchanged(m, x).pt[v].present
  {
    var x := FaultPlan(m, v, i, j, f, node);
    FaultOffsets(m, v, i, j, f, node);
    assert Moves(m, x);
    ExchangeGood(m, x);
    ExchangeView(m, x);
    SameView(m, v, x.data);
  }

  lemma SameView(m: Image, v: nat, data: Page)
    requires v in m.pt && Content(m, v) == data
    ensures View(m)[v := data] == View(m)
  {}

  lemma FaultOffsets(m: Image, v: nat, i: nat, j: nat, f: nat, node: nat)
    requires OffsetsOk(m.swp, m.numSwap, m.free, |m.file|) && j < m.numSwap
    requires ReadyToFault(m, v, j) && i < MAX_PSYC_PAGES
    ensures Offsets(m, FaultPlan(m, v, i, j, f, node))
  {
    OffsetsRecycle(m.swp, m.numSwap, m.free, |m.file|, j, m.ram[i].vpn);
    assert Untouched(m.swp, m.numSwap, j, GivenBack(m, j)[0], |m.file|) by {
      assert forall k :: 0 <= k < m.numSwap && k != j ==> m.swp[k].swapOffset !in GivenBack(m, j);
    }
  }

  // ----- a new page when RAM is full

  function GrowPlan(m: Image, v: nat, i: nat, f: nat): Plan {
    Plan(v, Mapped(f), ZeroPage(), i, m.numSwap, m.free, m.numSwap + 1, m.freeFrames - {f})
  }

  predicate Overflowing(m: Image, v: nat) {
    Good(m) && m.numRam == MAX_PSYC_PAGES && m.numSwap < MAX_PSYC_PAGES && v !in m.pt
  }

  predicate ReadyToOverflow(m: Image, v: nat) {
    match m
    case Image(_, _, _, ram, _, swp, _, free, file) =>
      && |ram| == |swp| == MAX_PSYC_PAGES
      && free != [] && free[0] <= |file| && free[0] < MAX_PSYC_PAGES
      && forall i :: 0 <= i < MAX_PSYC_PAGES ==> Evictable(m, v, ram[i].vpn)
  }

  lemma OverflowReady(m: Image, v: nat)
    requires Overflowing(m, v)
    ensures ReadyToOverflow(m, v)
  {
    OffsetsTake(m.swp, m.numSwap, m.free, |m.file|, 0);
  }

  /** Growing past RAM adds a zero page and changes no other. */
  lemma OverflowGood(m: Image, v: nat, i: nat, f: nat)
    requires Overflowing(m, v) && Holds(m, v) && ReadyToOverflow(m, v)
    requires i < MAX_PSYC_PAGES && f in m.freeFrames
    ensures
      var x := GrowPlan(m, v, i, f);
      && Feasible(m, x) && Good(Exchanged(m, x)) && Holds(Exchanged(m, x), v + 1)
      && View(Exchanged(m, x)) == View(m)[v := ZeroPage()]
  {
    var x := GrowPlan(m, v, i, f);
    OverflowOffsets(m, v, i, f);
    assert Moves(m, x);
    ExchangeGood(m, x);
    ExchangeView(m, x);
  }

  lemma OverflowOffsets(m: Image, v: nat, i: nat, f: nat)
    requires OffsetsOk(m.swp, m.numSwap, m.free, |m.file|) && m.numSwap < MAX_PSYC_PAGES
    requires ReadyToOverflow(m, v) && i < MAX_PSYC_PAGES
    ensures Offsets(m, GrowPlan(m, v, i, f))
  {
    OffsetsTake(m.swp, m.numSwap, m.free, |m.file|, m.ram[i].vpn);
    assert Untouched(m.swp, m.numSwap, m.numSwap, m.free[0], |m.file|);
  }

  // ----- one round of growth

  /** What allocuvm relies on when it adds page a, the first one not mapped. */
  predicate ReadyToAdd(m: Image, a: nat) {
    match m
    case Image(_, frames, freeFrames, ram, numRam, _, numSwap, _, _) =>
      && freeFrames !! frames.Keys
      && |ram| == MAX_PSYC_PAGES
      && (MAX_PSYC_PAGES <= numRam && numSwap < MAX_PSYC_PAGES ==> ReadyToOverflow(m, a))
  }

  lemma AddReady(m: Image, a: nat)
    requires Good(m) && Holds(m, a)
    ensures ReadyToAdd(m, a)
    ensures m.numRam >= MAX_PSYC_PAGES && m.numSwap >= MAX_PSYC_PAGES ==> a == 2 * MAX_PSYC_PAGES
  {
    if MAX_PSYC_PAGES <= m.numRam && m.numSwap < MAX_PSYC_PAGES {
      OverflowReady(m, a);
    }
  }

  lemma AddedGood(m: Image, a: nat, f: nat, i: nat, m': Image)
    requires Good(m) && Holds(m, a) && ReadyToAdd(m, a) && f in m.freeFrames && i < MAX_PSYC_PAGES
    requires
      if m.numRam < MAX_PSYC_PAGES then m' == Added(m, a, f)
      else m.numSwap < MAX_PSYC_PAGES && Feasible(m, GrowPlan(m, a, i, f)) && m' == Exchanged(m, GrowPlan(m, a, i, f))
    ensures Good(m') && Holds(m', a + 1) && View(m') == View(m)[a := ZeroPage()]
    ensures a < 2 * MAX_PSYC_PAGES
  {
    if m.numRam < MAX_PSYC_PAGES {
      AddGood(m, a, f);
    } else {
      OverflowGood(m, a, i, f);
    }
  }

  // ----- the flat memory a process is promised

  /** A process's memory as it sees it: its size and its pages. */
  datatype Flat = Flat(sz: nat, pages: map<nat, Page>)

  function Pages(sz: nat): nat {
    (sz + PGSIZE - 1) / PGSIZE
  }

  /** Page v lies below Pages(sz) exactly when it starts below sz. */
  lemma PagesBelow(sz: nat, v: nat)
    ensures v < Pages(sz) <==> v * PGSIZE < sz
  {}

  lemma PagesGrow(sz: nat, n: nat)
    ensures Pages(sz) <= Pages(sz + n)
  {}

  lemma AllPagesBelow(sz: nat)
    ensures forall v: nat :: v < Pages(sz) <==> v * PGSIZE < sz
  {
    hide Pages;
    forall v: nat
      ensures v < Pages(sz) <==> v * PGSIZE < sz
    {
      PagesBelow(sz, v);
    }
  }

  datatype Op = Grow(n: nat) | Load(addr: nat) | Store(addr: nat, value: Byte)

  datatype Obs = Done | Value(b: Byte) | Refused

  /** pages extended with zero pages up to n. */
  function GrowTo(pages: map<nat, Page>, n: nat): map<nat, Page> {
    if n == 0 || n - 1 in pages then pages else GrowTo(pages, n - 1)[n - 1 := ZeroPage()]
  }

  function FlatStep(m: Flat, op: Op): (Flat, Obs) {
    match op
    case Grow(n) =>
      if m.sz + n >= KERNBASE then (m, Refused) else (Flat(m.sz + n, GrowTo(m.pages, Pages(m.sz + n))), Done)
    case Load(a) =>
      if a / PGSIZE in m.pages then (m, Value(ByteAt(m.pages[a / PGSIZE], a % PGSIZE))) else (m, Refused)
    case Store(a, b) =>
      if a / PGSIZE in m.pages
      then (m.(pages := m.pages[a / PGSIZE := WithByte(m.pages[a / PGSIZE], a % PGSIZE, b)]), Done)
      else (m, Refused)
  }

  function FlatRun(m: Flat, ops: seq<Op>): (Flat, seq<Obs>)
    decreases |ops|
  {
    if ops == [] then (m, [])
    else
      var (m1, obs) := FlatRun(m, ops[..|ops|-1]);
      var (m2, o) := FlatStep(m1, ops[|ops|-1]);
      (m2, obs + [o])
  }

  /** The pages are those below the size, all of PGSIZE bytes. */
  ghost predicate FlatOk(m: Flat) {
    && (forall v: nat :: v in m.pages <==> v * PGSIZE < m.sz)
    && (forall v :: v in m.pages ==> |m.pages[v].bytes| == PGSIZE)
  }

  /** The byte at address a, 0 where there is none. */
  function At(m: Flat, a: nat): Byte {
    if a / PGSIZE in m.pages then ByteAt(m.pages[a / PGSIZE], a % PGSIZE) else 0
  }

  /** Address a is in a page that starts below sz. */
  predicate InMemory(sz: nat, a: nat) {
    a / PGSIZE * PGSIZE < sz
  }

  /** What address a holds after ops: the last byte stored there while it was part of the memory,
      else what m holds there. */
  function Latest(m: Flat, ops: seq<Op>, a: nat): Byte
    decreases |ops|
  {
    if ops == [] then At(m, a)
    else
      var before, op := ops[..|ops|-1], ops[|ops|-1];
      if op.Store? && op.addr == a && InMemory(GrownSize(m.sz, before), a) then op.value
      else Latest(m, before, a)
  }

  /** Growth past KERNBASE is refused; nothing else changes the size. */
  function GrownSize(sz: nat, ops: seq<Op>): nat
    decreases |ops|
  {
    if ops == [] then sz
    else
      var before, op := GrownSize(sz, ops[..|ops|-1]), ops[|ops|-1];
      if op.Grow? && before + op.n < KERNBASE then before + op.n else before
  }

  lemma {:induction false} GrowToAt(pages: map<nat, Page>, k: nat, n: nat)
    requires (forall v: nat :: v in pages <==> v < k) && k <= n
    ensures forall v: nat :: v in GrowTo(pages, n) <==> v < n
    ensures forall v: nat :: v < n ==> GrowTo(pages, n)[v] == if v < k then pages[v] else ZeroPage()
  {
    if k < n {
      GrowToAt(pages, k, n - 1);
    }
  }

  lemma FlatStepOk(m: Flat, op: Op, a: nat)
    requires FlatOk(m)
    ensures FlatOk(FlatStep(m, op).0)
    ensures At(FlatStep(m, op).0, a) ==
      if op.Store? && op.addr == a && InMemory(m.sz, a) then op.value else At(m, a)
  {
    hide Pages;
    match op
    case Grow(n) =>
      if m.sz + n < KERNBASE {
        AllPagesBelow(m.sz);
        AllPagesBelow(m.sz + n);
        PagesGrow(m.sz, n);
        GrowToAt(m.pages, Pages(m.sz), Pages(m.sz + n));
      }
    case Load(_) =>
    case Store(x, b) =>
      assert x / PGSIZE == a / PGSIZE && x % PGSIZE == a % PGSIZE ==> x == a;
  }

  /** A flat memory is an array of bytes: it has the size that growth gave it, and each address
      holds the last byte stored there, or zero when it is new. */
  lemma {:induction false} FlatMeaning(m: Flat, ops: seq<Op>, a: nat)
    requires FlatOk(m)
    ensures FlatOk(FlatRun(m, ops).0) && FlatRun(m, ops).0.sz == GrownSize(m.sz, ops)
    ensures At(FlatRun(m, ops).0, a) == Latest(m, ops, a)
    decreases |ops|
  {
    hide FlatOk, At;
    if ops != [] {
      FlatMeaning(m, ops[..|ops|-1], a);
      FlatStepOk(FlatRun(m, ops[..|ops|-1]).0, ops[|ops|-1], a);
    }
  }

  /** What an operation shows after others: growth is refused at KERNBASE, an access outside the
      memory is refused, and a load shows the latest byte. */
  function Shown(m: Flat, before: seq<Op>, op: Op): Obs {
    match op
    case Grow(n) => if GrownSize(m.sz, before) + n < KERNBASE then Done else Refused
    case Load(a) => if InMemory(GrownSize(m.sz, before), a) then Value(Latest(m, before, a)) else Refused
    case Store(a, _) => if InMemory(GrownSize(m.sz, before), a) then Done else Refused
  }

  lemma ShownMeaning(m: Flat, ops: seq<Op>, op: Op)
    requires FlatOk(m)
    ensures FlatStep(FlatRun(m, ops).0, op).1 == Shown(m, ops, op)
  {
    FlatMeaning(m, ops, if op.Grow? then 0 else op.addr);
  }

  // ----- the process

  datatype Outcome =
    | Ok
    | TooLarge          // allocuvm returns 0: size would reach KERNBASE
    | OutOfMemory       // kalloc found no frame
    | PageLimit         // panic("page limit exceeded")

  class Process {
    var sz: nat
    var pt: PageTable
    var frames: map<nat, Page>
    var freeFrames: set<nat>
    var ramPages: seq<Slot>
    var swappedPages: seq<Slot>
    var numRam: nat
    var numSwap: nat
    var free: seq<nat>        // the fblock list, head first
    var file: seq<Page>       // the swap file
    ghost var mem: map<nat, Page> // what the process sees

    ghost function Im(): Image
      reads `pt, `frames, `freeFrames, `ramPages, `numRam, `swappedPages, `numSwap, `free, `file
    {
      Image(pt, frames, freeFrames, ramPages, numRam, swappedPages, numSwap, free, file)
    }

    /** The process has n pages and its memory is mem. */
    ghost predicate Inv(n: nat)
      reads this
    {
      Good(Im()) && Holds(Im(), n) && View(Im()) == mem
    }

    ghost predicate Valid()
      reads this
    {
      Inv(Pages(sz)) && sz < KERNBASE
    }

    ghost function Flatten(): Flat
      reads this
    {
      Flat(sz, mem)
    }

    /** allocproc: no pages, and a free list of all offsets in order. */
    constructor (ram: set<nat>)
      ensures Valid() && sz == 0 && mem == map[] && freeFrames == ram && FlatOk(Flatten())
      ensures free == Range(0, MAX_PSYC_PAGES) && file == []
    {
      sz, pt, frames, freeFrames := 0, map[], map[], ram;
      ramPages := seq(MAX_PSYC_PAGES, _ => NoSlot);
      swappedPages := seq(MAX_PSYC_PAGES, _ => NoSlot);
      numRam, numSwap := 0, 0;
      file, mem := [], map[];
      var list: seq<nat> := [0];
      for i := 1 to MAX_PSYC_PAGES
        invariant list == Range(0, i)
      {
        list := list + [i];
      }
      free := list;
      new;
      forall o | 0 <= o < MAX_PSYC_PAGES
        ensures o in free
      {
        assert free[o] == o;
      }
      assert OffsetsOk(swappedPages, numSwap, free, |file|);
    }

    method Kalloc() returns (ok: bool, f: nat)
      modifies `freeFrames
      ensures ok <==> old(freeFrames) != {}
      ensures if ok then f in old(freeFrames) && freeFrames == old(freeFrames) - {f}
                    else freeFrames == old(freeFrames)
    {
      ok, f := freeFrames != {}, 0;
      if ok {
        f :| f in freeFrames;
        freeFrames := freeFrames - {f};
      }
    }

    /** Whatever the policy is, it names one of the RAM slots. */
    method IndexToEvict() returns (i: nat)
      ensures i < MAX_PSYC_PAGES
    {
      i :| 0 <= i < MAX_PSYC_PAGES;
    }

    method GetSwappedPageIndex(v: nat) returns (r: int)
      requires |swappedPages| == MAX_PSYC_PAGES
      ensures r == FindSlot(swappedPages, v)
    {
      FindsFirst(swappedPages, v);
      var i := 0;
      while i < MAX_PSYC_PAGES
        invariant 0 <= i <= MAX_PSYC_PAGES
        invariant forall k :: 0 <= k < i ==> swappedPages[k].vpn != v
      {
        if swappedPages[i].vpn == v {
          return i;
        }
        i := i + 1;
      }
      return -1;
    }

    /** Copy page v to offset o of the swap file. Refused past the end of the file, and past the
        largest file size, where a part of the page may have been written. */
    method WriteToSwapFile(v: nat, o: nat) returns (ok: bool)
      requires v in pt && pt[v].present && pt[v].frame in frames
      modifies `file
      ensures ok <==> o <= |old(file)| && (o + 1) * PGSIZE <= FileData.MAXBYTES
      ensures ok ==> file == FileWith(old(file), o, frames[pt[v].frame])
      ensures !ok ==> file == Landing(old(file), o, frames[pt[v].frame], PageLanded(|old(file)|, o))
    {
      LandedWhole(|file|, o);
      var n := PageLanded(|file|, o);
      if n < PGSIZE {
        file := Landing(file, o, frames[pt[v].frame], n);
        return false;
      }
      file := FileWith(file, o, frames[pt[v].frame]);
      return true;
    }

    method AllocuvmNoswap(v: nat)
      requires numRam < |ramPages|
      modifies `ramPages, `numRam
      ensures ramPages == old(ramPages)[old(numRam) := Slot(true, v, -1)] && numRam == old(numRam) + 1
    {
      ramPages := ramPages[numRam := Slot(true, v, -1)];
      numRam := numRam + 1;
    }

    /** Move the page of RAM slot i out: take the head offset, write the page there, record it
        in swap slot j, release its frame and mark its entry paged out. */
    method SwapOut(i: nat, j: nat)
      requires i < |ramPages| && j < |swappedPages|
      requires free != [] && free[0] <= |file| && free[0] < MAX_PSYC_PAGES
      requires ramPages[i].vpn in pt && pt[ramPages[i].vpn].present && pt[ramPages[i].vpn].frame in frames
      modifies `free, `file, `swappedPages, `frames, `freeFrames, `pt
      ensures free == old(free)[1..]
      ensures file == FileWith(old(file), old(free)[0], old(frames)[old(pt)[ramPages[i].vpn].frame])
      ensures swappedPages == old(swappedPages)[j := Slot(true, ramPages[i].vpn, old(free)[0])]
      ensures frames == old(frames) - {old(pt)[ramPages[i].vpn].frame}
      ensures freeFrames == old(freeFrames) + {old(pt)[ramPages[i].vpn].frame}
      ensures pt == old(pt)[ramPages[i].vpn := PagedOut(old(pt)[ramPages[i].vpn])]
    {
      var w := ramPages[i].vpn;
      var offset := free[0];
      free := free[1..];
      var written := WriteToSwapFile(w, offset);
      assert written; // panic("allocuvm: writeToSwapFile") is not reached
      swappedPages := swappedPages[j := Slot(true, w, offset)];
      var pa := pt[w].frame; // PTE_P is set: the "not present" panics are not reached
      frames, freeFrames := frames - {pa}, freeFrames + {pa};
      pt := pt[w := PagedOut(pt[w])];
    }

    /** RAM is full: page v, just mapped to frame f, takes the place of the page the policy
        names. m is the state before v was given its frame. */
    method AllocuvmWithswap(v: nat, f: nat, ghost m: Image) returns (r: Outcome, ghost evicted: nat)
      requires m.numSwap < MAX_PSYC_PAGES ==> ReadyToOverflow(m, v)
      requires f !in m.frames
      requires Im() == m.(pt := m.pt[v := Mapped(f)], frames := m.frames[f := ZeroPage()],
                          freeFrames := m.freeFrames - {f})
      modifies `pt, `frames, `freeFrames, `ramPages, `swappedPages, `numRam, `numSwap, `free, `file
      ensures r == if m.numSwap >= MAX_PSYC_PAGES then PageLimit else Ok
      ensures r == Ok ==> Feasible(m, GrowPlan(m, v, evicted, f)) && Im() == Exchanged(m, GrowPlan(m, v, evicted, f))
    {
      evicted := 0;
      if numSwap >= MAX_PSYC_PAGES {
        return PageLimit, 0;
      }
      var i := IndexToEvict();
      assert Evictable(m, v, m.ram[i].vpn);
      SwapOut(i, numSwap);
      numSwap := numSwap + 1;
      ramPages := ramPages[i := Slot(true, v, -1)];
      return Ok, i;
    }

    /** One round of allocuvm's loop: a zero page at a, in a free RAM slot or in the place of
        the page the policy names. */
    method AllocuvmPage(a: nat) returns (r: Outcome, ghost f: nat, ghost evicted: nat)
      requires ReadyToAdd(Im(), a)
      modifies `pt, `frames, `freeFrames, `ramPages, `swappedPages, `numRam, `numSwap, `free, `file
      ensures !r.TooLarge?
      ensures r.OutOfMemory? <==> old(freeFrames) == {}
      ensures r.OutOfMemory? ==> freeFrames == {}
      ensures r.PageLimit? ==> old(numRam) >= MAX_PSYC_PAGES && old(numSwap) >= MAX_PSYC_PAGES
      ensures r.Ok? ==> f in old(freeFrames) && evicted < MAX_PSYC_PAGES
      ensures r.Ok? && old(numRam) < MAX_PSYC_PAGES ==> Im() == Added(old(Im()), a, f)
      ensures r.Ok? && old(numRam) >= MAX_PSYC_PAGES ==>
        && old(numSwap) < MAX_PSYC_PAGES
        && Feasible(old(Im()), GrowPlan(old(Im()), a, evicted, f))
        && Im() == Exchanged(old(Im()), GrowPlan(old(Im()), a, evicted, f))
    {
      ghost var m := Im();
      f, evicted := 0, 0;
      var ok, mem := Kalloc();
      if !ok {
        r := OutOfMemory;
        return;
      }
      f := mem;
      frames := frames[mem := ZeroPage()];
      pt := pt[a := Mapped(mem)]; // not mapped yet: panic("remap") is not reached
      if numRam < MAX_PSYC_PAGES {
        AllocuvmNoswap(a);
        r := Ok;
      } else {
        r, evicted := AllocuvmWithswap(a, mem, m);
      }
    }

    method AddPage(a: nat) returns (r: Outcome)
      requires Inv(a)
      modifies `pt, `frames, `freeFrames, `ramPages, `swappedPages, `numRam, `numSwap, `free, `file, `mem
      ensures !r.TooLarge?
      ensures r.OutOfMemory? ==> freeFrames == {}
      ensures r.PageLimit? ==> a == 2 * MAX_PSYC_PAGES
      ensures r.Ok? ==>
        && a < 2 * MAX_PSYC_PAGES && Inv(a + 1)
        && mem == old(mem)[a := ZeroPage()]
    {
      hide Good, Holds, View;
      ghost var m := Im();
      AddReady(m, a);
      ghost var f, evicted;
      r, f, evicted := AllocuvmPage(a);
      if r == Ok {
        AddedGood(m, a, f, evicted, Im());
        mem := mem[a := ZeroPage()];
      }
    }

    /** Grow to newsz bytes, adding zero pages. Memory may run out on the way; "page limit
        exceeded" comes up only when more pages are asked for than both tables hold. */
    method Allocuvm(newsz: nat) returns (r: Outcome)
      requires Valid()
      modifies `pt, `frames, `freeFrames, `ramPages, `swappedPages, `numRam, `numSwap, `free, `file, `mem
      ensures r.TooLarge? <==> newsz >= KERNBASE
      ensures r.TooLarge? || newsz < sz ==> Valid() && mem == old(mem)
      ensures r.Ok? && sz <= newsz ==>
        && Inv(Pages(newsz)) && newsz <= 2 * MAX_PSYC_PAGES * PGSIZE
        && mem == GrowTo(old(mem), Pages(newsz))
        && (forall v: nat :: v in mem <==> v * PGSIZE < newsz)
        && (forall v :: v in mem ==> mem[v] == if v in old(mem) then old(mem)[v] else ZeroPage())
      ensures r.PageLimit? ==> newsz > 2 * MAX_PSYC_PAGES * PGSIZE
      ensures r.OutOfMemory? ==> freeFrames == {}
      ensures newsz < sz ==> r.Ok? || r.TooLarge?
    {
      hide Good, Holds, View;
      if newsz >= KERNBASE {
        return TooLarge;
      }
      if newsz < sz {
        return Ok;
      }
      ghost var m0 := mem;
      var a := Pages(sz);
      Sizes(Im(), a);
      while a * PGSIZE < newsz
        invariant Pages(sz) <= a <= Pages(newsz) && a <= 2 * MAX_PSYC_PAGES
        invariant sz == old(sz)
        invariant Inv(a)
        invariant mem == GrowTo(m0, a)
      {
        r := AddPage(a);
        if r != Ok {
          return r;
        }
        a := a + 1;
      }
      assert a == Pages(newsz);
      AllPagesBelow(newsz);
      GrowToAt(m0, Pages(sz), a);
      return Ok;
    }

    /** Bring page v in from swap slot j, evicting the page the policy names. The code asks for a
        frame for the page and one for the free-list node and goes on without them if kalloc
        fails; the model stops there. */
    method HandlePagedout(v: nat, ghost j: nat) returns (ok: bool, ghost f: nat, ghost node: nat, ghost victim: nat)
      requires ReadyToFault(Im(), v, j)
      modifies `pt, `frames, `freeFrames, `ramPages, `swappedPages, `numRam, `numSwap, `free, `file
      ensures !ok ==> freeFrames == {}
      ensures ok ==>
        && f in old(freeFrames) && victim < MAX_PSYC_PAGES
        && Feasible(old(Im()), FaultPlan(old(Im()), v, victim, j, f, node))
        && Im() == Exchanged(old(Im()), FaultPlan(old(Im()), v, victim, j, f, node))
    {
      ghost var m := Im();
      var page, block;
      f, node, victim := 0, 0, 0;
      ok, page := Kalloc();
      if !ok {
        return;
      }
      pt := pt[v := PagedIn(pt[v], page)];
      var index := GetSwappedPageIndex(v);
      var offset := swappedPages[index].swapOffset;
      var buffer := file[offset];
      ok, block := Kalloc();
      if !ok {
        return;
      }
      free := free + [offset];
      frames := frames[page := buffer];
      swappedPages := swappedPages[index := NoSlot];
      if numRam < MAX_PSYC_PAGES {
        assert false; // a page is swapped, so RAM is full
      } else {
        var i := IndexToEvict();
        assert Evictable(m, v, m.ram[i].vpn);
        SwapOut(i, index);
        assert swappedPages == m.swp[index := swappedPages[index]];
        ramPages := ramPages[i := Slot(true, v, -1)];
        f, node, victim := page, block, i;
        assert file == Exchanged(m, FaultPlan(m, v, i, j, f, node)).file;
        assert frames == Exchanged(m, FaultPlan(m, v, i, j, f, node)).frames;
      }
    }

    /** pagefault on a page that is in the swap file: the process cannot tell it happened. */
    method Pagefault(v: nat) returns (ok: bool)
      requires Valid() && v in pt && !pt[v].present
      modifies `pt, `frames, `freeFrames, `ramPages, `swappedPages, `numRam, `numSwap, `free, `file, `mem
      ensures if ok then Valid() && v in pt && pt[v].present && mem == old(mem) else freeFrames == {}
    {
      hide Good, Holds, View;
      ghost var m := Im();
      ghost var j := FaultSlot(m, v);
      FaultReady(m, v, j);
      ghost var f, node, victim;
      ok, f, node, victim := HandlePagedout(v, j);
      if ok {
        FaultGood(m, Pages(sz), v, victim, j, f, node);
      }
    }

    /** growproc for n >= 0. */
    method Growproc(n: nat) returns (r: Outcome)
      requires Valid()
      modifies this
      ensures r.TooLarge? <==> old(sz) + n >= KERNBASE
      ensures r.Ok? || r.TooLarge? ==> Valid()
      ensures r.TooLarge? ==> sz == old(sz) && mem == old(mem)
      ensures r.Ok? ==> sz == old(sz) + n && mem == GrowTo(old(mem), Pages(sz))
      ensures r.Ok? ==> forall v: nat :: v in mem <==> v * PGSIZE < sz
      ensures r.Ok? ==> forall v :: v in mem ==> mem[v] == if v in old(mem) then old(mem)[v] else ZeroPage()
      ensures r.PageLimit? ==> old(sz) + n > 2 * MAX_PSYC_PAGES * PGSIZE
      ensures r.OutOfMemory? ==> freeFrames == {}
    {
      hide Good, Holds, View, GrowTo;
      r := Allocuvm(sz + n);
      if r == Ok {
        sz := sz + n;
      }
    }

    /** A user access to page v: faults it in when it is not present. */
    method Touch(v: nat) returns (ok: bool)
      requires Valid() && v in pt
      modifies this
      ensures sz == old(sz)
      ensures if ok then Valid() && v in pt && pt[v].present && mem == old(mem) else freeFrames == {}
    {
      hide Good, Holds, View;
      ok := true;
      if !pt[v].present {
        ok := Pagefault(v);
      }
    }

    method LoadByte(addr: nat) returns (ok: bool, o: Obs)
      requires Valid()
      modifies this
      ensures !ok ==> freeFrames == {}
      ensures ok ==> Valid() && (Flatten(), o) == FlatStep(old(Flatten()), Load(addr))
    {
      hide Good, Holds, View;
      var v := addr / PGSIZE;
      ViewAt(Im(), v);
      if v !in pt {
        return true, Refused;
      }
      ok := Touch(v);
      o := Refused;
      if ok {
        ghost var m := Im();
        ViewAt(m, v);
        o := Value(ByteAt(frames[pt[v].frame], addr % PGSIZE));
      }
    }

    method StoreByte(addr: nat, b: Byte) returns (ok: bool, o: Obs)
      requires Valid()
      modifies this
      ensures !ok ==> freeFrames == {}
      ensures ok ==> Valid() && (Flatten(), o) == FlatStep(old(Flatten()), Store(addr, b))
    {
      hide Good, Holds, View;
      var v := addr / PGSIZE;
      ViewAt(Im(), v);
      if v !in pt {
        return true, Refused;
      }
      ok := Touch(v);
      o := Refused;
      if ok {
        ghost var m := Im();
        ViewAt(m, v);
        var data := WithByte(frames[pt[v].frame], addr % PGSIZE, b);
        frames := frames[pt[v].frame := data];
        StoreGood(m, Pages(sz), v, data);
        assert Im() == Stored(m, v, data);
        mem := mem[v := data];
        o := Done;
      }
    }

    method Step(op: Op) returns (ok: bool, o: Obs)
      requires Valid()
      modifies this
      ensures ok ==> Valid() && (Flatten(), o) == FlatStep(old(Flatten()), op)
      ensures !ok ==> freeFrames == {} || (op.Grow? && old(sz) + op.n > 2 * MAX_PSYC_PAGES * PGSIZE)
    {
      hide Good, Holds, View;
      match op {
        case Grow(n) =>
          var r := Growproc(n);
          ok := r.Ok? || r.TooLarge?;
          o := if r.TooLarge? then Refused else Done;
        case Load(a) =>
          ok, o := LoadByte(a);
        case Store(a, b) =>
          ok, o := StoreByte(a, b);
      }
    }

    /** Transparent paging: whatever the process does, and whichever pages are evicted on the
        way, it observes what a flat memory would show. A run ends early only when physical
        memory is used up or when growth passes twice MAX_PSYC_PAGES pages. In the end the memory
        has exactly the pages that start below its size, and every answer is the one that the
        operations before it call for: a load showed the latest byte. */
    method Run(ops: seq<Op>) returns (done: nat, obs: seq<Obs>)
      requires Valid()
      modifies this
      ensures done <= |ops| && obs == FlatRun(old(Flatten()), ops[..done]).1
      ensures done == |ops| ==> Valid() && Flatten() == FlatRun(old(Flatten()), ops).0
      ensures done < |ops| ==>
        freeFrames == {} ||
        (ops[done].Grow? &&
         FlatRun(old(Flatten()), ops[..done]).0.sz + ops[done].n > 2 * MAX_PSYC_PAGES * PGSIZE)
      ensures |obs| == done
      ensures done == |ops| ==> forall v: nat :: v in mem <==> v * PGSIZE < sz
      ensures old(FlatOk(Flatten())) ==>
        && (done == |ops| ==> FlatOk(Flatten()) && sz == GrownSize(old(sz), ops))
        && (forall i :: 0 <= i < done ==> obs[i] == Shown(old(Flatten()), ops[..i], ops[i]))
    {
      hide Good, Holds, View, FlatOk, Shown, Latest, GrownSize, FlatStep;
      done, obs := 0, [];
      ghost var m0 := Flatten();
      while done < |ops|
        invariant done <= |ops| && Valid() && |obs| == done
        invariant (Flatten(), obs) == FlatRun(old(Flatten()), ops[..done])
        invariant old(FlatOk(Flatten())) ==>
          forall i :: 0 <= i < done ==> obs[i] == Shown(m0, ops[..i], ops[i])
      {
        assert ops[..done+1][..done] == ops[..done];
        if FlatOk(m0) {
          ShownMeaning(m0, ops[..done], ops[done]);
        }
        var ok, o := Step(ops[done]);
        if !ok {
          return;
        }
        done, obs := done + 1, obs + [o];
      }
      assert ops[..done] == ops;
      if FlatOk(m0) {
        FlatMeaning(m0, ops, 0);
      }
      Sizes(Im(), Pages(sz));
      AllPagesBelow(sz);
    }
  }

  lemma ViewAt(m: Image, v: nat)
    requires Good(m)
    ensures v in View(m) <==> v in m.pt
    ensures v in m.pt && m.pt[v].present ==> m.pt[v].frame in m.frames && View(m)[v] == m.frames[m.pt[v].frame]
  {}

  lemma Sizes(m: Image, n: nat)
    requires Good(m) && Holds(m, n)
    ensures n <= 2 * MAX_PSYC_PAGES && forall v: nat :: v in View(m) <==> v < n
  {}
}
