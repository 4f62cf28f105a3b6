/**
 Two-level page tables and the pages they own.

 Pages are numbered by physical address, virtual pages by virtual address. `maps` gives, for every
 page directory, the present entries of the address space it describes. `role` says what each
 allocated page is used for.
 */
module PageTables {

  const ENTRIES: nat := 1024  // NPDENTRIES, NPTENTRIES
  const PGSIZE: nat := 4096
  const USER_PAGES: nat := 524288  // KERNBASE / PGSIZE
  const ALL_PAGES: nat := 1048576
  const UINT_RANGE := 0x1_0000_0000

  type Word = w: int | 0 <= w < UINT_RANGE

  type Page = p: seq<Word> | |p| == ENTRIES witness seq(ENTRIES, _ => 0)

  const ZERO: Page := seq(ENTRIES, _ => 0)
  const JUNK: Page := seq(ENTRIES, _ => 0x01010101)

  // ----- Entries -----

  // PTE_P
  predicate Present(w: Word) {
    w % 2 == 1
  }

  // The page PTE_ADDR() gives.
  function Ppn(w: Word): (p: int)
    ensures 0 <= p < ALL_PAGES
  {
    w / PGSIZE
  }

  // PTE_FLAGS()
  function Flags(w: Word): (f: int)
    ensures 0 <= f < PGSIZE
  {
    w % PGSIZE
  }

  // pa | perm | PTE_P
  function Entry(p: int, perm: int): (w: Word)
    requires 0 <= p < ALL_PAGES && 0 <= perm < PGSIZE
    ensures Present(w) && Ppn(w) == p && Flags(w) == perm + 1 - perm % 2
  {
    p * PGSIZE + perm + 1 - perm % 2
  }

  // PDX() and PTX()
  function Pdx(v: int): (i: int)
    requires 0 <= v < ALL_PAGES
    ensures 0 <= i < ENTRIES
  {
    v / ENTRIES
  }

  function Ptx(v: int): (j: int)
    requires 0 <= v < ALL_PAGES
    ensures 0 <= j < ENTRIES
  {
    v % ENTRIES
  }

  // PGROUNDUP(), as a page number.
  function PageUp(sz: int): (v: int)
    requires 0 <= sz
    ensures 0 <= v
  {
    (sz + PGSIZE - 1) / PGSIZE
  }

  // ----- What pages are used for -----

  datatype Role =
    | Dir
    | Table(dir: int, i: int)  // of the i-th entry of a directory
    | User(dir: int, v: int)  // at virtual page v
    | Held  // by whoever called kalloc()

  type Roles = map<int, Role>

  type Maps = map<int, map<int, Word>>

  predicate Belongs(r: Role, d: int) {
    (r.Table? || r.User?) && r.dir == d
  }

  predicate IsData(r: Role) {
    r.User? || r.Held?
  }

  // What the hardware finds for a virtual page: the entry of the second level, or none.
  function Lookup(mem: seq<Page>, d: int, v: int): (w: Word)
    requires 0 <= d < |mem| && 0 <= v < ALL_PAGES
  {
    var pde := mem[d][Pdx(v)];
    if Present(pde) && Ppn(pde) < |mem| then mem[Ppn(pde)][Ptx(v)] else 0
  }

  ghost predicate MapOk(mem: seq<Page>, m: map<int, Word>, d: int, v: int)
    requires 0 <= d < |mem| && 0 <= v < ALL_PAGES
  {
    (v in m <==> Present(Lookup(mem, d, v))) && (v in m ==> m[v] == Lookup(mem, d, v))
  }

  // A present directory entry owns its table.
  ghost predicate PdeOk(mem: seq<Page>, role: Roles, d: int, i: int)
    requires 0 <= d < |mem| && 0 <= i < ENTRIES
  {
    Present(mem[d][i]) ==> Ppn(mem[d][i]) in role && role[Ppn(mem[d][i])] == Table(d, i)
  }

  // A present entry below KERNBASE owns its page.
  ghost predicate VpnOk(role: Roles, m: map<int, Word>, d: int, v: int)
    requires v in m
  {
    0 <= v < ALL_PAGES && (v < USER_PAGES ==> Ppn(m[v]) in role && role[Ppn(m[v])] == User(d, v))
  }

  ghost predicate DirOk(mem: seq<Page>, role: Roles, maps: Maps, d: int)
    requires d in maps
  {
    && 0 <= d < |mem| && d in role && role[d] == Dir
    && (forall i :: 0 <= i < ENTRIES ==> PdeOk(mem, role, d, i))
    && (forall v :: 0 <= v < ALL_PAGES ==> MapOk(mem, maps[d], d, v))
    && (forall v :: v in maps[d] ==> VpnOk(role, maps[d], d, v))
  }

  // A page in use is referred to from where its role says.
  ghost predicate RoleOk(mem: seq<Page>, role: Roles, maps: Maps, p: int)
    requires p in role
  {
    && 0 <= p < |mem|
    && match role[p]
       case Dir => p in maps
       case Table(d, i) =>
         d in maps && 0 <= d < |mem| && 0 <= i < ENTRIES && Present(mem[d][i]) && Ppn(mem[d][i]) == p
       case User(d, v) =>
         d in maps && 0 <= v < USER_PAGES && v in maps[d] && Ppn(maps[d][v]) == p
       case Held => true
  }

  // Every page in use has exactly one place.
  ghost predicate Spaces(mem: seq<Page>, role: Roles, maps: Maps) {
    && (forall d :: d in maps ==> DirOk(mem, role, maps, d))
    && (forall p :: p in role ==> RoleOk(mem, role, maps, p))
  }

  // No page is mapped twice below KERNBASE, and none that is mapped there is a directory or a table.
  lemma {:induction false} NotShared(mem: seq<Page>, role: Roles, maps: Maps, d: int, v: int, e: int, u: int)
    requires Spaces(mem, role, maps) && d in maps && e in maps
    requires 0 <= v < USER_PAGES && 0 <= u < USER_PAGES && v in maps[d] && u in maps[e]
    ensures Ppn(maps[d][v]) == Ppn(maps[e][u]) <==> d == e && v == u
    ensures Ppn(maps[d][v]) != e && 0 <= e < |mem|
    ensures forall i :: 0 <= i < ENTRIES && Present(mem[e][i]) ==> Ppn(maps[d][v]) != Ppn(mem[e][i])
  {
    assert DirOk(mem, role, maps, d) && DirOk(mem, role, maps, e);
    assert VpnOk(role, maps[d], d, v) && VpnOk(role, maps[e], e, u);
    forall i | 0 <= i < ENTRIES && Present(mem[e][i]) ensures Ppn(maps[d][v]) != Ppn(mem[e][i]) {
      assert PdeOk(mem, role, e, i);
    }
  }

  // ----- Steps -----

  // Pages that are free or just allocated can be written.
  lemma {:induction false} Scribbled(mem: seq<Page>, role: Roles, maps: Maps, p: int, x: Page)
    requires Spaces(mem, role, maps) && 0 <= p < |mem| && (p in role ==> IsData(role[p]))
    ensures Spaces(mem[p := x], role, maps)
  {
    var mem' := mem[p := x];
    forall d | d in maps ensures DirOk(mem', role, maps, d) {
      assert DirOk(mem, role, maps, d);
      forall i | 0 <= i < ENTRIES ensures PdeOk(mem', role, d, i) { assert PdeOk(mem, role, d, i); }
      forall v | 0 <= v < ALL_PAGES ensures MapOk(mem', maps[d], d, v) {
        assert MapOk(mem, maps[d], d, v) && PdeOk(mem, role, d, Pdx(v));
      }
    }
    forall q | q in role ensures RoleOk(mem', role, maps, q) {
      assert RoleOk(mem, role, maps, q);
      if role[q].Table? { assert DirOk(mem, role, maps, role[q].dir); }
    }
  }

  lemma {:induction false} Taken(mem: seq<Page>, role: Roles, maps: Maps, p: int)
    requires Spaces(mem, role, maps) && 0 <= p < |mem| && p !in role
    ensures Spaces(mem, role[p := Held], maps)
  {
    var role' := role[p := Held];
    forall d | d in maps ensures DirOk(mem, role', maps, d) {
      assert DirOk(mem, role, maps, d);
      forall i | 0 <= i < ENTRIES ensures PdeOk(mem, role', d, i) { assert PdeOk(mem, role, d, i); }
      forall v | v in maps[d] ensures VpnOk(role', maps[d], d, v) { assert VpnOk(role, maps[d], d, v); }
    }
    forall q | q in role' ensures RoleOk(mem, role', maps, q) {
      if q != p { assert RoleOk(mem, role, maps, q); }
    }
  }

  lemma {:induction false} Returned(mem: seq<Page>, role: Roles, maps: Maps, p: int)
    requires Spaces(mem, role, maps) && p in role && role[p] == Held
    ensures Spaces(mem, role - {p}, maps)
  {
    var role' := role - {p};
    forall d | d in maps ensures DirOk(mem, role', maps, d) {
      assert DirOk(mem, role, maps, d);
      forall i | 0 <= i < ENTRIES ensures PdeOk(mem, role', d, i) { assert PdeOk(mem, role, d, i); }
      forall v | v in maps[d] ensures VpnOk(role', maps[d], d, v) { assert VpnOk(role, maps[d], d, v); }
    }
    forall q | q in role' ensures RoleOk(mem, role', maps, q) { assert RoleOk(mem, role, maps, q); }
  }

  // A zeroed page becomes an empty directory. A page of junk would not.
  lemma {:induction false} DirMade(mem: seq<Page>, role: Roles, maps: Maps, d: int)
    requires Spaces(mem, role, maps) && d in role && role[d] == Held && 0 <= d < |mem| && mem[d] == ZERO
    ensures d !in maps && Spaces(mem, role[d := Dir], maps[d := map[]])
  {
    var role', maps' := role[d := Dir], maps[d := map[]];
    assert d in maps ==> DirOk(mem, role, maps, d);
    forall e | e in maps' ensures DirOk(mem, role', maps', e) {
      if e != d {
        assert DirOk(mem, role, maps, e);
        forall i | 0 <= i < ENTRIES ensures PdeOk(mem, role', e, i) { assert PdeOk(mem, role, e, i); }
        forall v | v in maps[e] ensures VpnOk(role', maps'[e], e, v) { assert VpnOk(role, maps[e], e, v); }
        forall v | 0 <= v < ALL_PAGES ensures MapOk(mem, maps'[e], e, v) { assert MapOk(mem, maps[e], e, v); }
      }
    }
    forall q | q in role' ensures RoleOk(mem, role', maps', q) { assert RoleOk(mem, role, maps, q); }
  }

  // The junk that kfree() leaves in a page, with the link in its first word, has present bits: no address
  // space can have such a page as its directory before memset() has zeroed it.
  lemma {:induction false} JunkIsNoDir(mem: seq<Page>, role: Roles, maps: Maps, d: int, link: Word)
    requires 0 <= d < |mem| && mem[d] == JUNK[0 := link] && d in maps
    ensures !Spaces(mem, role, maps)
  {
    assert Present(mem[d][1]) && mem[d][1] == mem[d][2];
    assert !(PdeOk(mem, role, d, 1) && PdeOk(mem, role, d, 2));
    assert !DirOk(mem, role, maps, d);
  }

  // A zeroed page becomes a table of directory d, which maps nothing new.
  lemma {:induction false} TableMade(mem: seq<Page>, role: Roles, maps: Maps, d: int, i: int, t: int)
    requires Spaces(mem, role, maps) && d in maps && 0 <= d < |mem| && 0 <= i < ENTRIES && !Present(mem[d][i])
    requires t in role && role[t] == Held && 0 <= t < |mem| && t < ALL_PAGES && mem[t] == ZERO
    ensures Spaces(mem[d := mem[d][i := Entry(t, 6)]], role[t := Table(d, i)], maps)
  {
    var mem', role' := mem[d := mem[d][i := Entry(t, 6)]], role[t := Table(d, i)];
    assert DirOk(mem, role, maps, d);
    forall e | e in maps ensures DirOk(mem', role', maps, e) {
      assert DirOk(mem, role, maps, e);
      forall k | 0 <= k < ENTRIES ensures PdeOk(mem', role', e, k) { assert PdeOk(mem, role, e, k); }
      forall v | v in maps[e] ensures VpnOk(role', maps[e], e, v) { assert VpnOk(role, maps[e], e, v); }
      forall v | 0 <= v < ALL_PAGES ensures MapOk(mem', maps[e], e, v) {
        assert MapOk(mem, maps[e], e, v) && PdeOk(mem, role, e, Pdx(v));
      }
    }
    forall q | q in role' ensures RoleOk(mem', role', maps, q) { assert RoleOk(mem, role, maps, q); }
  }

  // The page holding the table for virtual page v.
  function TableOf(mem: seq<Page>, d: int, v: int): (t: int)
    requires 0 <= d < |mem| && 0 <= v < ALL_PAGES
  {
    Ppn(mem[d][Pdx(v)])
  }

  function With(m: map<int, Word>, v: int, w: Word): (r: map<int, Word>) {
    m + map[v := w]
  }

  // An absent entry becomes present. Below KERNBASE the directory takes over the page.
  lemma {:induction false} PteSet(mem: seq<Page>, role: Roles, maps: Maps, d: int, v: int, w: Word)
    requires Spaces(mem, role, maps) && d in maps && 0 <= d < |mem| && 0 <= v < ALL_PAGES
    requires Present(mem[d][Pdx(v)]) && v !in maps[d] && Present(w)
    requires v < USER_PAGES ==> Ppn(w) in role && role[Ppn(w)] == Held
    ensures var t := TableOf(mem, d, v);
            && t in role && role[t] == Table(d, Pdx(v)) && 0 <= t < |mem|
            && Spaces(mem[t := mem[t][Ptx(v) := w]], Mapped(role, d, v, w), maps[d := With(maps[d], v, w)])
  {
    assert DirOk(mem, role, maps, d);
    assert PdeOk(mem, role, d, Pdx(v));
    var t := TableOf(mem, d, v);
    assert RoleOk(mem, role, maps, t);
    var mem', role', maps' := mem[t := mem[t][Ptx(v) := w]], Mapped(role, d, v, w), maps[d := With(maps[d], v, w)];
    forall e | e in maps' ensures DirOk(mem', role', maps', e) {
      assert DirOk(mem, role, maps, e);
      forall k | 0 <= k < ENTRIES ensures PdeOk(mem', role', e, k) { assert PdeOk(mem, role, e, k); }
      forall u | u in maps'[e] ensures VpnOk(role', maps'[e], e, u) {
        if !(e == d && u == v) { assert VpnOk(role, maps[e], e, u); }
      }
      forall u | 0 <= u < ALL_PAGES ensures MapOk(mem', maps'[e], e, u) {
        assert MapOk(mem, maps[e], e, u) && PdeOk(mem, role, e, Pdx(u));
        assert Pdx(u) == Pdx(v) && Ptx(u) == Ptx(v) ==> u == v;
      }
    }
    forall q | q in role' ensures RoleOk(mem', role', maps', q) { assert RoleOk(mem, role, maps, q); }
  }

  function Mapped(role: Roles, d: int, v: int, w: Word): (r: Roles) {
    if v < USER_PAGES then role[Ppn(w) := User(d, v)] else role
  }

  // A present user entry is cleared and its page is nobody's for a moment.
  lemma {:induction false} PteCleared(mem: seq<Page>, role: Roles, maps: Maps, d: int, v: int)
    requires Spaces(mem, role, maps) && d in maps && 0 <= d < |mem| && v in maps[d] && 0 <= v < USER_PAGES
    ensures var t, p := TableOf(mem, d, v), Ppn(maps[d][v]);
            && t in role && role[t] == Table(d, Pdx(v)) && 0 <= t < |mem|
            && p in role && role[p] == User(d, v) && 0 <= p < |mem|
            && Spaces(mem[t := mem[t][Ptx(v) := 0]], role[p := Held], maps[d := maps[d] - {v}])
  {
    assert DirOk(mem, role, maps, d);
    assert MapOk(mem, maps[d], d, v) && VpnOk(role, maps[d], d, v) && PdeOk(mem, role, d, Pdx(v));
    var t, p := TableOf(mem, d, v), Ppn(maps[d][v]);
    assert RoleOk(mem, role, maps, t) && RoleOk(mem, role, maps, p);
    var mem', role', maps' := mem[t := mem[t][Ptx(v) := 0]], role[p := Held], maps[d := maps[d] - {v}];
    forall e | e in maps' ensures DirOk(mem', role', maps', e) {
      assert DirOk(mem, role, maps, e);
      forall k | 0 <= k < ENTRIES ensures PdeOk(mem', role', e, k) { assert PdeOk(mem, role, e, k); }
      forall u | u in maps'[e] ensures VpnOk(role', maps'[e], e, u) { assert VpnOk(role, maps[e], e, u); }
      forall u | 0 <= u < ALL_PAGES ensures MapOk(mem', maps'[e], e, u) {
        assert MapOk(mem, maps[e], e, u) && PdeOk(mem, role, e, Pdx(u));
        assert Pdx(u) == Pdx(v) && Ptx(u) == Ptx(v) ==> u == v;
      }
    }
    forall q | q in role' ensures RoleOk(mem', role', maps', q) { assert RoleOk(mem, role, maps, q); }
  }

  // Directory d and its tables lose their meaning and can be freed.
  function Dismantled(role: Roles, d: int): (r: Roles) {
    map p | p in role :: if p == d || Belongs(role[p], d) then Held else role[p]
  }

  lemma {:induction false} Dismantle(mem: seq<Page>, role: Roles, maps: Maps, d: int)
    requires Spaces(mem, role, maps) && d in maps && forall v :: v in maps[d] ==> v >= USER_PAGES
    ensures Spaces(mem, Dismantled(role, d), maps - {d})
  {
    var role', maps' := Dismantled(role, d), maps - {d};
    assert DirOk(mem, role, maps, d);
    forall e | e in maps' ensures DirOk(mem, role', maps', e) {
      assert DirOk(mem, role, maps, e);
      forall k | 0 <= k < ENTRIES ensures PdeOk(mem, role', e, k) { assert PdeOk(mem, role, e, k); }
      forall u | u in maps'[e] ensures VpnOk(role', maps'[e], e, u) { assert VpnOk(role, maps[e], e, u); }
      forall u | 0 <= u < ALL_PAGES ensures MapOk(mem, maps'[e], e, u) { assert MapOk(mem, maps[e], e, u); }
    }
    forall q | q in role' ensures RoleOk(mem, role', maps', q) { assert RoleOk(mem, role, maps, q); }
  }
}

/**
 The page allocator, page directories and address spaces.
 */
module VirtualMemory {
  import opened PageTables

  const KERNBASE := 0x8000_0000

  // P2V(): where the kernel sees a page.
  function Addr(p: int): (a: Word)
    requires 0 <= p < USER_PAGES
  {
    KERNBASE + p * PGSIZE
  }

  // The page at a kernel address.
  function PageAt(a: Word): (p: int) {
    (a - KERNBASE) / PGSIZE
  }

  // The pages of the free list, from its head.
  datatype List = Nil | Cons(page: int, rest: List)

  ghost function Pages(free: List): (s: set<int>) {
    match free
    case Nil => {}
    case Cons(p, rest) => {p} + Pages(rest)
  }

  // Each free page holds the address of the next one in its first word.
  ghost predicate Chain(mem: seq<Page>, head: Word, free: List)
    decreases free
  {
    match free
    case Nil => head == 0
    case Cons(p, rest) =>
      0 <= p < |mem| && p < USER_PAGES && head == Addr(p) && p !in Pages(rest) && Chain(mem, mem[p][0], rest)
  }

  lemma {:induction false} ChainKept(mem: seq<Page>, p: int, x: Page, head: Word, free: List)
    requires Chain(mem, head, free) && 0 <= p < |mem| && p !in Pages(free)
    ensures Chain(mem[p := x], head, free)
    decreases free
  {
    match free
    case Nil =>
    case Cons(q, rest) => ChainKept(mem, p, x, mem[q][0], rest);
  }

  // Every allocatable page is in use or on the free list, and not both.
  ghost predicate FreeOk(mem: seq<Page>, head: Word, free: List, role: Roles, first: int, top: int) {
    && 0 < first <= top <= |mem| && top <= USER_PAGES && Chain(mem, head, free)
    && (forall p :: p in Pages(free) ==> p !in role)
    && (forall p :: first <= p < top <==> p in role || p in Pages(free))
  }

  // ----- How operations change roles, maps and contents -----

  // What was in use stays so; new pages in use are tables of directory d, of its entries ts.
  ghost predicate Grown(role: Roles, role': Roles, d: int, ts: set<int>) {
    && (forall p :: p in role ==> p in role' && role'[p] == role[p])
    && (forall p :: p in role' && p !in role ==> NewTable(role'[p], d, ts))
  }

  // Pages with data keep it, as long as they are in use.
  ghost predicate Kept(mem: seq<Page>, role: Roles, mem': seq<Page>, role': Roles) {
    |mem'| == |mem| && forall p :: p in role && p in role' && 0 <= p < |mem| && IsData(role[p]) ==> mem'[p] == mem[p]
  }

  // The last page of va .. va + size.
  function Last(va: int, size: int): (v: int) {
    (va + size - 1) / PGSIZE
  }

  lemma {:induction false} AtPage(v: int)
    ensures v * PGSIZE / PGSIZE == v && v * PGSIZE % PGSIZE == 0 && Last(v * PGSIZE, PGSIZE) == v
  {
  }

  // Virtual pages lo .. lo + n map to consecutive pages from p on.
  function Stretch(lo: int, n: int, p: int, perm: int): (m: map<int, Word>)
    requires 0 <= p && p + n <= ALL_PAGES && 0 <= perm < PGSIZE
    ensures forall v :: v in m <==> lo <= v < lo + n
  {
    var r := Range(lo, lo + n);
    map v | v in r :: Entry(p + v - lo, perm)
  }

  ghost predicate Unmapped(m: map<int, Word>, lo: int, last: int) {
    forall v :: lo <= v <= last ==> v !in m
  }

  // ts has the directory entries for those pages.
  ghost predicate Covers(ts: set<int>, lo: int, last: int)
    requires 0 <= lo && last < ALL_PAGES
  {
    forall v :: lo <= v <= last ==> Pdx(v) in ts
  }

  // Pages are mapped below KERNBASE by whoever holds them. Above, anything may be mapped.
  ghost predicate MayMap(role: Roles, lo: int, hi: int, p: int) {
    lo >= USER_PAGES || (hi < USER_PAGES && forall q :: p <= q <= p + hi - lo ==> q in role && role[q] == Held)
  }

  // n pages from p on have been mapped at virtual page lo of d, possibly with new tables.
  ghost predicate Handed(role: Roles, role': Roles, d: int, lo: int, n: int, p: int, ts: set<int>) {
    && (forall q :: q in role ==> q in role' && role'[q] == NewRole(role[q], d, lo, n, p, q))
    && (forall q :: q in role' && q !in role ==> NewTable(role'[q], d, ts))
  }

  function NewRole(r: Role, d: int, lo: int, n: int, p: int, q: int): (r': Role) {
    if lo < USER_PAGES && p <= q < p + n then User(d, lo + q - p) else r
  }

  predicate NewTable(r: Role, d: int, ts: set<int>) {
    r.Table? && r.dir == d && r.i in ts
  }

  // Only the address space of d has changed, and it is now m.
  ghost predicate Changed(maps: Maps, maps': Maps, d: int, m: map<int, Word>) {
    d in maps' && maps' == maps[d := maps'[d]] && maps'[d] == m
  }

  lemma {:induction false} NothingMapped(maps: Maps, d: int, lo: int, p: int, perm: int)
    requires d in maps && 0 <= p <= ALL_PAGES && 0 <= perm < PGSIZE
    ensures Changed(maps, maps, d, maps[d] + Stretch(lo, 0, p, perm))
  {
    assert maps[d] + Stretch(lo, 0, p, perm) == maps[d];
  }

  lemma {:induction false} StretchMore(lo: int, n: int, p: int, perm: int)
    requires 0 <= n && 0 <= p && p + n < ALL_PAGES && 0 <= perm < PGSIZE
    ensures Stretch(lo, n + 1, p, perm) == With(Stretch(lo, n, p, perm), lo + n, Entry(p + n, perm))
  {
  }

  lemma {:induction false} PlusWith(m: map<int, Word>, s: map<int, Word>, v: int, w: Word)
    ensures With(m + s, v, w) == m + With(s, v, w)
  {
  }

  lemma {:induction false} StretchNext(m: map<int, Word>, lo: int, n: int, p: int, perm: int, v: int, q: int)
    requires 0 <= n && 0 <= p && p + n < ALL_PAGES && 0 <= perm < PGSIZE && v == lo + n && q == p + n
    ensures With(m + Stretch(lo, n, p, perm), v, Entry(q, perm)) == m + Stretch(lo, n + 1, p, perm)
  {
    StretchMore(lo, n, p, perm);
    PlusWith(m, Stretch(lo, n, p, perm), v, Entry(q, perm));
  }

  lemma {:induction false} OneMoreMapped(maps: Maps, mid: Maps, maps': Maps, d: int, lo: int, n: int, p: int, perm: int,
                                         v: int, q: int)
    requires d in maps && 0 <= n && 0 <= p && p + n < ALL_PAGES && 0 <= perm < PGSIZE && v == lo + n && q == p + n
    requires Changed(maps, mid, d, maps[d] + Stretch(lo, n, p, perm))
    requires Changed(mid, maps', d, With(mid[d], v, Entry(q, perm)))
    ensures Changed(maps, maps', d, maps[d] + Stretch(lo, n + 1, p, perm))
  {
    ChangedTwice(maps, mid, maps', d);
    StretchNext(maps[d], lo, n, p, perm, v, q);
  }

  lemma {:induction false} HandedMore(role: Roles, mid: Roles, role': Roles, d: int, lo: int, n: int, p: int,
                                      v: int, q: int, ts: set<int>)
    requires Handed(role, mid, d, lo, n, p, ts) && v == lo + n && q == p + n && Handed(mid, role', d, v, 1, q, ts)
    requires 0 <= n
    requires lo < USER_PAGES ==> v < USER_PAGES && q in role && role[q] == Held
    ensures Handed(role, role', d, lo, n + 1, p, ts)
  {
  }

  lemma {:induction false} GrownThenMapped(role: Roles, mid: Roles, d: int, v: int, p: int, perm: int, ts: set<int>)
    requires Grown(role, mid, d, ts) && 0 <= p < ALL_PAGES && 0 <= perm < PGSIZE && (v < USER_PAGES ==> p in role)
    ensures Handed(role, Mapped(mid, d, v, Entry(p, perm)), d, v, 1, p, ts)
  {
  }

  lemma {:induction false} KeptMore(mem: seq<Page>, role: Roles, mem1: seq<Page>, mid: Roles, mem': seq<Page>,
                                    role': Roles)
    requires Kept(mem, role, mem1, mid) && Kept(mem1, mid, mem', role')
    requires forall q :: q in role && IsData(role[q]) && q in role' ==> q in mid && IsData(mid[q])
    ensures Kept(mem, role, mem', role')
  {
  }

  function Range(lo: int, hi: int): (s: set<int>)
    ensures forall p :: p in s <==> lo <= p < hi
    decreases hi - lo
  {
    if lo >= hi then {} else Range(lo, hi - 1) + {hi - 1}
  }

  lemma {:induction false} RangeLess<T>(m: map<int, T>, m': map<int, T>, lo: int, v: int)
    requires lo <= v && m' == m - Range(lo, v)
    ensures m' - {v} == m - Range(lo, v + 1)
  {
  }

  lemma {:induction false} RangeSame<T>(m: map<int, T>, m': map<int, T>, lo: int, v: int, v': int)
    requires lo <= v <= v' && m' == m - Range(lo, v) && forall u :: v <= u < v' ==> u !in m'
    ensures m' == m - Range(lo, v')
  {
  }

  // Whole pages from page p fit below a kernel address.
  predicate Fits(p: int, vend: int)
    ensures Fits(p, vend) <==> p < (vend - KERNBASE) / PGSIZE
  {
    KERNBASE + p * PGSIZE + PGSIZE <= vend
  }

  // Page v starts below size sz.
  predicate Below(v: int, sz: int)
    requires 0 <= sz
    ensures Below(v, sz) <==> v < PageUp(sz)
  {
    v * PGSIZE < sz
  }

  predicate Within(r: Role, d: int, lo: int, hi: int) {
    r.User? && r.dir == d && lo <= r.v < hi
  }

  // The user pages lo .. hi of d are no longer in use.
  ghost predicate Dropped(role: Roles, role': Roles, d: int, lo: int, hi: int) {
    && (forall p :: p in role' ==> p in role && role'[p] == role[p] && !Within(role[p], d, lo, hi))
    && (forall p :: p in role && !Within(role[p], d, lo, hi) ==> p in role')
  }

  lemma {:induction false} DropOne(role: Roles, mid: Roles, d: int, lo: int, v: int, p: int)
    requires Dropped(role, mid, d, lo, v) && lo <= v && p in mid && mid[p] == User(d, v)
    requires forall q :: q in mid && mid[q] == User(d, v) ==> q == p
    ensures Dropped(role, mid - {p}, d, lo, v + 1)
  {
  }

  lemma {:induction false} DropNone(role: Roles, mid: Roles, d: int, lo: int, v: int, v': int)
    requires Dropped(role, mid, d, lo, v) && lo <= v <= v' && forall q :: q in mid ==> !Within(mid[q], d, v, v')
    ensures Dropped(role, mid, d, lo, v')
  {
  }

  // Where no entry is present nothing is owned.
  lemma {:induction false} NoneOwned(mem: seq<Page>, role: Roles, maps: Maps, d: int, v: int, v': int)
    requires Spaces(mem, role, maps) && d in maps && forall u :: v <= u < v' ==> u !in maps[d]
    ensures forall q :: q in role ==> !Within(role[q], d, v, v')
  {
    forall q | q in role ensures !Within(role[q], d, v, v') { assert RoleOk(mem, role, maps, q); }
  }

  // Without its table no page of a 4 MB stretch is present.
  lemma {:induction false} NoTable(mem: seq<Page>, role: Roles, maps: Maps, d: int, v: int)
    requires Spaces(mem, role, maps) && d in maps && 0 <= d < |mem| && 0 <= v < ALL_PAGES && !Present(mem[d][Pdx(v)])
    ensures forall u :: v <= u < (Pdx(v) + 1) * ENTRIES ==> u !in maps[d]
  {
    assert DirOk(mem, role, maps, d);
    forall u | v <= u < (Pdx(v) + 1) * ENTRIES ensures u !in maps[d] {
      assert MapOk(mem, maps[d], d, u);
    }
  }

  lemma {:induction false} OnlyOwner(mem: seq<Page>, role: Roles, maps: Maps, d: int, v: int)
    requires Spaces(mem, role, maps) && d in maps && v in maps[d] && 0 <= v < USER_PAGES
    ensures var p := Ppn(maps[d][v]);
            p in role && role[p] == User(d, v) && forall q :: q in role && role[q] == User(d, v) ==> q == p
  {
    assert DirOk(mem, role, maps, d);
    assert VpnOk(role, maps[d], d, v);
    forall q | q in role && role[q] == User(d, v) ensures q == Ppn(maps[d][v]) { assert RoleOk(mem, role, maps, q); }
  }

  // ----- Taking a space apart -----

  // Directory d, its tables and its pages are no longer in use.
  ghost predicate Gone(role: Roles, role': Roles, d: int) {
    && (forall p :: p in role' ==> p in role && role'[p] == role[p] && p != d && !Belongs(role[p], d))
    && (forall p :: p in role && p != d && !Belongs(role[p], d) ==> p in role')
  }

  predicate TableBefore(r: Role, d: int, k: int) {
    r.Table? && r.dir == d && r.i < k
  }

  // d has been dismantled and its first k tables freed.
  ghost predicate TablesGone(role: Roles, role': Roles, d: int, k: int) {
    && (forall p :: p in role' ==>
          && p in role && !TableBefore(role[p], d, k)
          && role'[p] == if p == d || Belongs(role[p], d) then Held else role[p])
    && (forall p :: p in role && !TableBefore(role[p], d, k) ==> p in role')
  }

  lemma {:induction false} TableGone(role: Roles, mid: Roles, d: int, k: int, t: int)
    requires TablesGone(role, mid, d, k) && t in role && role[t] == Table(d, k)
    requires forall q :: q in role && role[q] == Table(d, k) ==> q == t
    ensures t in mid && mid[t] == Held && TablesGone(role, mid - {t}, d, k + 1)
  {
  }

  lemma {:induction false} TableAt(mem: seq<Page>, role: Roles, maps: Maps, d: int, i: int)
    requires Spaces(mem, role, maps) && d in maps && 0 <= d < |mem| && 0 <= i < ENTRIES
    ensures forall q :: q in role && role[q] == Table(d, i) ==> Present(mem[d][i]) && q == Ppn(mem[d][i])
  {
    forall q | q in role && role[q] == Table(d, i) ensures Present(mem[d][i]) && q == Ppn(mem[d][i]) {
      assert RoleOk(mem, role, maps, q);
    }
  }

  lemma {:induction false} RolesInRange(mem: seq<Page>, role: Roles, maps: Maps)
    requires Spaces(mem, role, maps)
    ensures forall p :: p in role && role[p].Table? ==> role[p].i < ENTRIES
    ensures forall p :: p in role && role[p].User? ==> 0 <= role[p].v < USER_PAGES
  {
    assert forall p :: p in role ==> RoleOk(mem, role, maps, p);
  }

  lemma {:induction false} AllGone(mem: seq<Page>, role: Roles, maps: Maps, mid: Roles, d: int)
    requires Spaces(mem, role, maps) && d in maps && TablesGone(role, mid, d, ENTRIES)
    requires forall p :: p in role ==> !Within(role[p], d, 0, USER_PAGES)
    ensures d in mid && mid[d] == Held && Gone(role, mid - {d}, d)
  {
    assert DirOk(mem, role, maps, d);
    RolesInRange(mem, role, maps);
  }

  lemma {:induction false} GoneAfterDropped(role0: Roles, role: Roles, role': Roles, d: int)
    requires Dropped(role0, role, d, 0, USER_PAGES) && Gone(role, role', d)
    requires forall p :: p in role0 && role0[p].User? ==> 0 <= role0[p].v < USER_PAGES
    ensures Gone(role0, role', d)
  {
  }

  lemma {:induction false} ChangedTwice(maps: Maps, mid: Maps, maps': Maps, d: int)
    requires d in mid && mid == maps[d := mid[d]] && d in maps' && maps' == mid[d := maps'[d]]
    ensures maps' == maps[d := maps'[d]]
  {
  }

  lemma {:induction false} ChangedThenGone(maps: Maps, mid: Maps, maps': Maps, d: int)
    requires d in mid && mid == maps[d := mid[d]] && maps' == mid - {d}
    ensures maps' == maps - {d}
  {
  }

  // ----- Growing a space -----

  // Page p has been mapped at v, possibly with new tables.
  ghost predicate Added(role: Roles, role': Roles, d: int, v: int, p: int, ts: set<int>) {
    && (forall q :: q in role ==> q in role' && role'[q] == role[q])
    && p in role' && p !in role && role'[p] == User(d, v)
    && (forall q :: q in role' && q !in role && q != p ==> NewTable(role'[q], d, ts))
  }

  lemma {:induction false} TakenAndMapped(role: Roles, role': Roles, d: int, v: int, p: int, ts: set<int>)
    requires p !in role && 0 <= v < USER_PAGES && Handed(role[p := Held], role', d, v, 1, p, ts)
    ensures Added(role, role', d, v, p, ts)
  {
  }

  lemma {:induction false} TakenNotMapped(role: Roles, role': Roles, d: int, v: int, p: int, ts: set<int>)
    requires Handed(role[p := Held], role', d, v, 0, p, ts)
    ensures Grown(role[p := Held], role', d, ts)
  {
  }

  lemma {:induction false} OneMapped(maps: Maps, maps': Maps, d: int, v: int, p: int, perm: int)
    requires d in maps && 0 <= p < ALL_PAGES && 0 <= perm < PGSIZE
    ensures Changed(maps, maps', d, maps[d] + Stretch(v, 1, p, perm)) ==>
              Changed(maps, maps', d, With(maps[d], v, Entry(p, perm)))
    ensures Changed(maps, maps', d, maps[d] + Stretch(v, 0, p, perm)) ==> maps' == maps
  {
    assert maps[d] + Stretch(v, 0, p, perm) == maps[d];
    StretchMore(v, 0, p, perm);
    assert maps[d] + Stretch(v, 1, p, perm) == With(maps[d], v, Entry(p, perm));
  }

  // New pages in use: tables of d, the pages it maps at lo .. hi, and maybe one more.
  ghost predicate Populated(role: Roles, role': Roles, d: int, lo: int, hi: int, extra: int, ts: set<int>) {
    && (forall p :: p in role ==> p in role' && role'[p] == role[p])
    && (forall p :: p in role' && p !in role ==>
          if p == extra then role'[p] == Held else NewTable(role'[p], d, ts) || Within(role'[p], d, lo, hi))
    && (extra != -1 ==> extra in role' && extra !in role)
  }

  lemma {:induction false} PopulatedMore(role: Roles, mid: Roles, role': Roles, d: int, lo: int, v: int, p: int,
                                         ts: set<int>)
    requires Populated(role, mid, d, lo, v, -1, ts) && Added(mid, role', d, v, p, ts) && lo <= v && -1 !in role'
    ensures Populated(role, role', d, lo, v + 1, -1, ts)
  {
  }

  lemma {:induction false} PopulatedExtra(role: Roles, mid: Roles, role': Roles, d: int, lo: int, v: int, p: int,
                                          ts: set<int>)
    requires Populated(role, mid, d, lo, v, -1, ts) && p !in mid && Grown(mid[p := Held], role', d, ts) && -1 !in role'
    requires p != -1
    ensures Populated(role, role', d, lo, v, p, ts)
  {
  }

  lemma {:induction false} Depopulated(role: Roles, mid: Roles, role': Roles, d: int, lo: int, v: int, hi: int,
                                       extra: int, ts: set<int>)
    requires Populated(role, mid, d, lo, v, extra, ts) && lo <= v <= hi && Dropped(mid, role', d, lo, hi)
    requires forall p :: p in role ==> !Within(role[p], d, lo, hi)
    ensures Populated(role, role', d, lo, lo, extra, ts)
  {
  }

  // A page with contents x is mapped with the given flags.
  ghost predicate Shows(mem: seq<Page>, w: Word, x: Page, flags: int) {
    Ppn(w) < |mem| && mem[Ppn(w)] == x && Flags(w) == flags
  }

  // m has grown by lo .. v, and nothing else.
  ghost predicate Widened(m: map<int, Word>, m': map<int, Word>, lo: int, v: int) {
    && (forall u :: u in m' <==> u in m || lo <= u < v)
    && (forall u :: u in m ==> m'[u] == m[u])
  }

  // The pages lo .. v of m show xs with flags fs.
  ghost predicate AllShow(mem: seq<Page>, m: map<int, Word>, lo: int, v: int, xs: seq<Page>, fs: seq<int>) {
    v <= |xs| == |fs| && forall u :: 0 <= lo <= u < v && u in m ==> Shows(mem, m[u], xs[u], fs[u])
  }

  // Pages stay mapped to what they show when data in use is kept.
  lemma {:induction false} StillShow(mem: seq<Page>, role: Roles, maps: Maps, mem': seq<Page>, role': Roles, d: int,
                                     lo: int, v: int, xs: seq<Page>, fs: seq<int>)
    requires Spaces(mem, role, maps) && d in maps && AllShow(mem, maps[d], lo, v, xs, fs) && v <= USER_PAGES
    requires Kept(mem, role, mem', role') && forall p :: p in role ==> p in role'
    ensures AllShow(mem', maps[d], lo, v, xs, fs)
  {
    assert DirOk(mem, role, maps, d);
    forall u | 0 <= lo <= u < v && u in maps[d] ensures Shows(mem', maps[d][u], xs[u], fs[u]) {
      assert Shows(mem, maps[d][u], xs[u], fs[u]) && VpnOk(role, maps[d], d, u);
    }
  }

  lemma {:induction false} OneMoreShown(mem: seq<Page>, m0: map<int, Word>, m: map<int, Word>, lo: int, v: int,
                                        xs: seq<Page>, fs: seq<int>, p: int, perm: int)
    requires Widened(m0, m, lo, v) && AllShow(mem, m, lo, v, xs, fs) && 0 <= lo <= v < |xs| && v !in m0
    requires 0 <= p < |mem| && p < ALL_PAGES && mem[p] == xs[v] && 0 <= perm < PGSIZE && fs[v] == perm + 1 - perm % 2
    ensures var m' := With(m, v, Entry(p, perm)); Widened(m0, m', lo, v + 1) && AllShow(mem, m', lo, v + 1, xs, fs)
  {
    var m' := With(m, v, Entry(p, perm));
    forall u | lo <= u < v + 1 && u in m' ensures Shows(mem, m'[u], xs[u], fs[u]) {
      if u != v { assert Shows(mem, m[u], xs[u], fs[u]); }
    }
  }

  lemma {:induction false} Narrowed(maps: Maps, mid: Maps, maps': Maps, d: int, lo: int, v: int, hi: int)
    requires d in maps && d in mid && mid == maps[d := mid[d]] && Widened(maps[d], mid[d], lo, v) && lo <= v <= hi
    requires Changed(mid, maps', d, mid[d] - Range(lo, hi)) && forall u :: lo <= u < hi ==> u !in maps[d]
    ensures maps' == maps
  {
    var m := mid[d] - Range(lo, hi);
    assert forall u :: u in m <==> u in maps[d];
    assert forall u :: u in m ==> m[u] == maps[d][u];
    assert m == maps[d];
  }

  // ----- The kernel part of every space -----

  const EXTMEM := 0x10_0000
  const PHYSTOP := 0xE00_0000
  const DEVSPACE := 0xFE00_0000

  datatype Kmap = Kmap(virt: int, physStart: int, physEnd: int, perm: int) {
    function Size(): (n: int) {
      (physEnd - physStart) % UINT_RANGE
    }

    function Count(): (n: int) {
      Size() / PGSIZE
    }

    function End(): (a: int) {
      virt + Size()
    }

    predicate Ok() {
      && virt % PGSIZE == physStart % PGSIZE == Size() % PGSIZE == 0 && 0 < Size() && KERNBASE <= virt
      && End() <= UINT_RANGE && 0 <= physStart && physStart + Size() <= UINT_RANGE && 0 <= perm < PGSIZE
    }
  }

  // The mappings of the kernel, whose data segment starts at `data`.
  function Kernel(data: int): (km: seq<Kmap>) {
    [Kmap(KERNBASE, 0, EXTMEM, 2),
     Kmap(KERNBASE + EXTMEM, EXTMEM, data - KERNBASE, 0),
     Kmap(data, data - KERNBASE, PHYSTOP, 2),
     Kmap(DEVSPACE, DEVSPACE, 0, 2)]
  }

  // Where the linker may have put the data segment.
  predicate DataOk(data: int) {
    KERNBASE + EXTMEM < data < KERNBASE + PHYSTOP && data % PGSIZE == 0
  }

  // The ranges are whole pages in the upper half, one behind the other.
  predicate KernelOk(km: seq<Kmap>) {
    && |km| == 4 && km[0].Ok() && km[1].Ok() && km[2].Ok() && km[3].Ok()
    && km[0].End() <= km[1].virt && km[1].End() <= km[2].virt && km[2].End() <= km[3].virt
  }

  lemma {:induction false} KernelMapsOk(data: int)
    requires DataOk(data)
    ensures KernelOk(Kernel(data))
  {
    var km := Kernel(data);
    var text := data - KERNBASE - EXTMEM;
    assert km[0].Size() == EXTMEM && km[3].Size() == 0x200_0000;
    assert km[1].Size() == text && km[2].Size() == PHYSTOP - (data - KERNBASE);
    assert data % PGSIZE == 0 && KERNBASE % PGSIZE == 0 && EXTMEM % PGSIZE == 0 && PHYSTOP % PGSIZE == 0;
  }

  // What the first k mappings give.
  function KernelMap(km: seq<Kmap>, k: int): (m: map<int, Word>)
    requires KernelOk(km) && 0 <= k <= 4
    ensures forall v :: v in m ==> USER_PAGES <= v && (k < 4 ==> v < km[k].virt / PGSIZE)
    decreases k
  {
    if k == 0 then map[] else
      var r := km[k - 1];
      assert r.Ok() && (k < 4 ==> r.End() <= km[k].virt);
      KernelMap(km, k - 1) + Stretch(r.virt / PGSIZE, r.Count(), r.physStart / PGSIZE, r.perm)
  }

  // A range has the pages it is mapped to.
  lemma {:induction false} RangeFits(r: Kmap)
    requires r.Ok()
    ensures 0 < r.Count() && Last(r.virt, r.Size()) == r.virt / PGSIZE + r.Count() - 1
    ensures r.virt / PGSIZE >= USER_PAGES && r.physStart / PGSIZE + r.Count() <= ALL_PAGES
    ensures r.virt / PGSIZE + r.Count() <= ALL_PAGES
  {
  }

  // Range k is mapped behind the ones before it.
  lemma {:induction false} RangeMapped(km: seq<Kmap>, k: int, v: int)
    requires KernelOk(km) && 0 <= k < 4 && km[k].virt / PGSIZE <= v < km[k].virt / PGSIZE + km[k].Count()
    ensures km[k].Ok() && v in KernelMap(km, k + 1)
    ensures var p := km[k].physStart / PGSIZE + v - km[k].virt / PGSIZE;
            0 <= p < ALL_PAGES && KernelMap(km, k + 1)[v] == Entry(p, km[k].perm)
  {
    RangeFits(km[k]);
    var lo, p := km[k].virt / PGSIZE, km[k].physStart / PGSIZE;
    var s := Stretch(lo, km[k].Count(), p, km[k].perm);
    assert KernelMap(km, k + 1) == KernelMap(km, k) + s && v in s;
    assert s[v] == Entry(p + v - lo, km[k].perm);
  }

  lemma {:induction false} NextRange(km: seq<Kmap>, k: int, next: int, v: int)
    requires KernelOk(km) && 0 <= k < 4 && next == k + 1 && v in KernelMap(km, k)
    ensures v in KernelMap(km, next) && KernelMap(km, next)[v] == KernelMap(km, k)[v]
  {
    var r := km[k];
    assert r.Ok() && v < r.virt / PGSIZE;
    var s := Stretch(r.virt / PGSIZE, r.Count(), r.physStart / PGSIZE, r.perm);
    assert KernelMap(km, next) == KernelMap(km, k) + s && v !in s;
  }

  // It stays mapped when the following ranges are.
  lemma {:induction false} RangeStays(km: seq<Kmap>, k: int, k': int, v: int)
    requires KernelOk(km) && 0 <= k <= k' <= 4 && v in KernelMap(km, k)
    ensures v in KernelMap(km, k') && KernelMap(km, k')[v] == KernelMap(km, k)[v]
    decreases k'
  {
    if k < k' {
      RangeStays(km, k, k' - 1, v);
      NextRange(km, k' - 1, k', v);
    }
  }

  // Physical memory is covered by the first three ranges.
  lemma {:induction false} RangeOf(data: int, p: int) returns (k: int)
    requires DataOk(data) && 0 <= p < PHYSTOP / PGSIZE
    ensures KernelOk(Kernel(data)) && 0 <= k < 3
    ensures var r := Kernel(data)[k];
            && r.virt / PGSIZE == USER_PAGES + r.physStart / PGSIZE
            && r.physStart / PGSIZE <= p < r.physStart / PGSIZE + r.Count()
  {
    KernelMapsOk(data);
    k := if p < EXTMEM / PGSIZE then 0 else if p < (data - KERNBASE) / PGSIZE then 1 else 2;
  }

  // The kernel reaches every physical page at its address in the kernel, P2V().
  lemma {:induction false} DirectMap(data: int, p: int)
    requires DataOk(data) && 0 <= p < PHYSTOP / PGSIZE
    ensures KernelOk(Kernel(data))
    ensures var m := KernelMap(Kernel(data), 4);
            USER_PAGES + p in m && Ppn(m[USER_PAGES + p]) == p && Present(m[USER_PAGES + p])
  {
    var k := RangeOf(data, p);
    RangeMapped(Kernel(data), k, USER_PAGES + p);
    RangeStays(Kernel(data), k + 1, 4, USER_PAGES + p);
  }

  // New pages in use: the new directory d and its tables and pages.
  ghost predicate Building(role: Roles, role': Roles, d: int, ts: set<int>) {
    && (forall p :: p in role ==> p in role' && role'[p] == role[p])
    && (forall p :: p in role' && p !in role ==>
          p == d || NewTable(role'[p], d, ts) || Within(role'[p], d, 0, USER_PAGES))
  }

  lemma {:induction false} JustDir(role: Roles, role': Roles, d: int, ts: set<int>)
    requires d !in role && role' == role[d := Dir]
    ensures Building(role, role', d, ts)
  {
  }

  lemma {:induction false} BuiltMore(role: Roles, mid: Roles, role': Roles, d: int, lo: int, n: int, p: int,
                                     ts: set<int>)
    requires Building(role, mid, d, ts) && Handed(mid, role', d, lo, n, p, ts) && lo >= USER_PAGES
    ensures Building(role, role', d, ts)
  {
  }

  lemma {:induction false} BuiltAndPopulated(role: Roles, mid: Roles, role': Roles, d: int, lo: int, hi: int,
                                             ts: set<int>, us: set<int>)
    requires Building(role, mid, d, ts) && Populated(mid, role', d, lo, hi, -1, us) && -1 !in role'
    requires 0 <= lo && hi <= USER_PAGES
    ensures Building(role, role', d, ts + us)
  {
  }

  lemma {:induction false} TornDown(mem: seq<Page>, role: Roles, maps: Maps, mid: Roles, role': Roles, d: int,
                                    ts: set<int>)
    requires Spaces(mem, role, maps) && d !in maps && d !in role && Building(role, mid, d, ts) && Gone(mid, role', d)
    ensures role' == role
  {
    forall p | p in role ensures !Belongs(role[p], d) && p != d { assert RoleOk(mem, role, maps, p); }
    assert forall p :: p in role' <==> p in role;
  }

  // What the first n pages of a space hold, and their flags.
  ghost function Contents(mem: seq<Page>, m: map<int, Word>, n: int): (xs: seq<Page>)
    requires 0 <= n
    ensures |xs| == n
  {
    seq(n, u => if u in m && Ppn(m[u]) < |mem| then mem[Ppn(m[u])] else ZERO)
  }

  ghost function FlagsOf(m: map<int, Word>, n: int): (fs: seq<int>)
    requires 0 <= n
    ensures |fs| == n
  {
    seq(n, u => if u in m then Flags(m[u]) else 0)
  }

  lemma {:induction false} ContentsShown(mem: seq<Page>, role: Roles, maps: Maps, mem': seq<Page>, role': Roles,
                                         d: int, n: int)
    requires Spaces(mem, role, maps) && d in maps && 0 <= n <= USER_PAGES && forall v :: 0 <= v < n ==> v in maps[d]
    requires Kept(mem, role, mem', role') && forall p :: p in role ==> p in role'
    ensures AllShow(mem', maps[d], 0, n, Contents(mem, maps[d], n), FlagsOf(maps[d], n))
  {
    var xs, fs := Contents(mem, maps[d], n), FlagsOf(maps[d], n);
    assert DirOk(mem, role, maps, d);
    forall v | 0 <= v < n ensures Shows(mem, maps[d][v], xs[v], fs[v]) {
      assert VpnOk(role, maps[d], d, v);
      assert RoleOk(mem, role, maps, Ppn(maps[d][v]));
    }
    StillShow(mem, role, maps, mem', role', d, 0, n, xs, fs);
  }

  // ----- How many pages it takes -----

  // The entries of a directory that lead to virtual pages lo .. hi.
  ghost function Entries(lo: int, hi: int): (ts: set<int>)
    requires 0 <= lo && hi <= ALL_PAGES
  {
    if hi <= lo then {} else Range(Pdx(lo), Pdx(hi - 1) + 1)
  }

  lemma {:induction false} EntryOfPage(lo: int, v: int, hi: int)
    requires 0 <= lo <= v < hi <= ALL_PAGES
    ensures Pdx(v) in Entries(lo, hi)
  {
  }

  lemma {:induction false} AllEntries(lo: int, last: int)
    requires 0 <= lo <= last < ALL_PAGES
    ensures forall v :: lo <= v <= last ==> Pdx(v) in Entries(lo, last + 1)
  {
    forall v | lo <= v <= last ensures Pdx(v) in Entries(lo, last + 1) { EntryOfPage(lo, v, last + 1); }
  }

  // Of the first n entries, those in ts without a table.
  ghost function Lacking(dir: Page, ts: set<int>, n: nat): (k: nat)
    requires n <= ENTRIES
  {
    if n == 0 then 0 else Lacking(dir, ts, n - 1) + if n - 1 in ts && !Present(dir[n - 1]) then 1 else 0
  }

  // The tables that are missing for lo .. hi.
  ghost function Missing(mem: seq<Page>, d: int, lo: int, hi: int): (n: nat)
    requires 0 <= lo && hi <= ALL_PAGES
  {
    if 0 <= d < |mem| then Lacking(mem[d], Entries(lo, hi), ENTRIES) else 0
  }

  // The entries of a directory without a table.
  ghost function Holes(mem: seq<Page>, d: int): (s: set<int>) {
    if 0 <= d < |mem| then set i | 0 <= i < ENTRIES && !Present(mem[d][i]) else {}
  }

  // One of the entries ts has no table.
  ghost predicate Short(mem: seq<Page>, d: int, ts: set<int>) {
    exists i :: i in ts && i in Holes(mem, d)
  }

  lemma {:induction false} NoneLacking(dir: Page, ts: set<int>, n: nat)
    requires n <= ENTRIES && forall i :: 0 <= i < n && i in ts ==> Present(dir[i])
    ensures Lacking(dir, ts, n) == 0
  {
    if n > 0 { NoneLacking(dir, ts, n - 1); }
  }

  lemma {:induction false} SomeLacking(dir: Page, ts: set<int>, n: nat, i: int)
    requires 0 <= i < n <= ENTRIES && i in ts && !Present(dir[i])
    ensures Lacking(dir, ts, n) >= 1
  {
    if i < n - 1 { SomeLacking(dir, ts, n - 1, i); }
  }

  lemma {:induction false} ShortLacking(mem: seq<Page>, d: int, ts: set<int>)
    requires 0 <= d < |mem| && Short(mem, d, ts)
    ensures Lacking(mem[d], ts, ENTRIES) >= 1
  {
    var i :| i in ts && i in Holes(mem, d);
    SomeLacking(mem[d], ts, ENTRIES, i);
  }

  // Every page is free or in use.
  lemma {:induction false} Conserved(mem: seq<Page>, head: Word, free: List, role: Roles, first: int, top: int)
    requires FreeOk(mem, head, free, role, first, top)
    ensures |Pages(free)| + |role| == top - first
  {
    RangeSize(first, top);
    Parts(Pages(free), role.Keys, {}, {}, Range(first, top));
  }

  lemma {:induction false} Sizes(a: set<int>, b: set<int>, c: set<int>, d: set<int>)
    requires a !! b !! c !! d
    ensures |a + b + c + d| == |a| + |b| + |c| + |d|
  {
  }

  lemma {:induction false} SameSets(a: set<int>, b: set<int>)
    requires forall x: int :: x in a <==> x in b
    ensures a == b
  {
    assert forall x :: x in a ==> x in b;
    assert forall x :: x in b ==> x in a;
  }

  lemma {:induction false} RangeSize(lo: int, hi: int)
    requires lo <= hi
    ensures |Range(lo, hi)| == hi - lo
    decreases hi - lo
  {
    if lo < hi { RangeSize(lo, hi - 1); }
  }

  // The tables of d among pages in use are those its directory page names.
  ghost predicate Named(role: Roles, dir: Page, d: int) {
    && (forall p :: p in role && role[p].Table? && role[p].dir == d ==>
          0 <= role[p].i < ENTRIES && Present(dir[role[p].i]))
    && (forall i :: 0 <= i < ENTRIES && Present(dir[i]) ==> Ppn(dir[i]) in role && role[Ppn(dir[i])] == Table(d, i))
  }

  lemma {:induction false} NamedIn(mem: seq<Page>, role: Roles, maps: Maps, d: int)
    requires Spaces(mem, role, maps) && d in maps
    ensures 0 <= d < |mem| && Named(role, mem[d], d)
  {
    assert DirOk(mem, role, maps, d);
    forall p | p in role && role[p].Table? && role[p].dir == d
      ensures 0 <= role[p].i < ENTRIES && Present(mem[d][role[p].i])
    {
      assert RoleOk(mem, role, maps, p);
    }
    forall i | 0 <= i < ENTRIES && Present(mem[d][i])
      ensures Ppn(mem[d][i]) in role && role[Ppn(mem[d][i])] == Table(d, i)
    {
      assert PdeOk(mem, role, d, i);
    }
  }

  // Pages in use stay so, and tables stay tables.
  ghost predicate TablesKept(role0: Roles, role: Roles) {
    forall p :: p in role0 ==> p in role && (role0[p].Table? || role[p].Table? ==> role[p] == role0[p])
  }

  ghost predicate NewTableBelow(role0: Roles, role: Roles, d: int, n: int, p: int) {
    p in role && p !in role0 && role[p].Table? && role[p].dir == d && role[p].i < n
  }

  // The tables of d among the new pages in use, of its first n entries.
  ghost function NewTables(role0: Roles, role: Roles, d: int, n: int): (s: set<int>) {
    set p | p in role && NewTableBelow(role0, role, d, n, p)
  }

  // They are those that are missing no longer.
  lemma {:induction false} TablesCounted(role0: Roles, dir0: Page, mem: seq<Page>, role: Roles, maps: Maps, d: int,
                                         ts: set<int>, n: nat)
    requires Spaces(mem, role, maps) && d in maps && 0 <= d < |mem| && Named(role0, dir0, d) && TablesKept(role0, role)
    requires n <= ENTRIES && forall p :: NewTableBelow(role0, role, d, ENTRIES, p) ==> role[p].i in ts
    ensures |NewTables(role0, role, d, n)| + Lacking(mem[d], ts, n) == Lacking(dir0, ts, n)
  {
    if n == 0 {
      NamedIn(mem, role, maps, d);
      assert NewTables(role0, role, d, 0) == {};
    } else {
      TablesCounted(role0, dir0, mem, role, maps, d, ts, n - 1);
      NextTables(role0, dir0, mem, role, maps, d, n - 1);
    }
  }

  lemma {:induction false} NextTables(role0: Roles, dir0: Page, mem: seq<Page>, role: Roles, maps: Maps, d: int, i: int)
    requires Spaces(mem, role, maps) && d in maps && 0 <= d < |mem| && Named(role0, dir0, d) && TablesKept(role0, role)
    requires 0 <= i < ENTRIES
    ensures Present(dir0[i]) ==> Present(mem[d][i])
    ensures NewTables(role0, role, d, i + 1) == NewTables(role0, role, d, i)
              + if Present(mem[d][i]) && !Present(dir0[i]) then {Ppn(mem[d][i])} else {}
    ensures Present(mem[d][i]) && !Present(dir0[i]) ==>
              var p := Ppn(mem[d][i]);
              p !in NewTables(role0, role, d, i) && NewTableBelow(role0, role, d, ENTRIES, p) && role[p].i == i
  {
    NamedIn(mem, role, maps, d);
    forall p | p in role && role[p] == Table(d, i) ensures Present(mem[d][i]) && p == Ppn(mem[d][i]) {
      assert RoleOk(mem, role, maps, p);
    }
  }

  ghost predicate NewUserIn(role0: Roles, role: Roles, d: int, lo: int, v: int, p: int) {
    p in role && p !in role0 && Within(role[p], d, lo, v)
  }

  // The pages of lo .. v among the new ones in use.
  ghost function NewUsers(role0: Roles, role: Roles, d: int, lo: int, v: int): (s: set<int>) {
    set p | p in role && NewUserIn(role0, role, d, lo, v, p)
  }

  lemma {:induction false} UsersCounted(role0: Roles, mem: seq<Page>, role: Roles, maps: Maps, d: int, lo: int, v: int)
    requires Spaces(mem, role, maps) && d in maps && 0 <= lo <= v <= USER_PAGES
    requires forall u :: lo <= u < v ==> u in maps[d]
    requires forall p :: p in role0 && p in role ==> !Within(role[p], d, lo, v)
    ensures |NewUsers(role0, role, d, lo, v)| == v - lo
    decreases v - lo
  {
    if lo == v {
      assert NewUsers(role0, role, d, lo, v) == {};
    } else {
      UsersCounted(role0, mem, role, maps, d, lo, v - 1);
      OnePage(mem, role, maps, d, v - 1);
      NextUsers(role0, role, d, lo, v - 1, Ppn(maps[d][v - 1]));
    }
  }

  lemma {:induction false} OnePage(mem: seq<Page>, role: Roles, maps: Maps, d: int, u: int)
    requires Spaces(mem, role, maps) && d in maps && u in maps[d] && 0 <= u < USER_PAGES
    ensures forall p :: p in role ==> (role[p] == User(d, u) <==> p == Ppn(maps[d][u]))
    ensures Ppn(maps[d][u]) in role
  {
    assert DirOk(mem, role, maps, d);
    assert VpnOk(role, maps[d], d, u);
    forall p | p in role && role[p] == User(d, u) ensures p == Ppn(maps[d][u]) { assert RoleOk(mem, role, maps, p); }
  }

  lemma {:induction false} NextUsers(role0: Roles, role: Roles, d: int, lo: int, v: int, q: int)
    requires lo <= v && q in role && forall p :: p in role ==> (role[p] == User(d, v) <==> p == q)
    requires forall p :: p in role0 && p in role ==> !Within(role[p], d, lo, v + 1)
    ensures |NewUsers(role0, role, d, lo, v + 1)| == |NewUsers(role0, role, d, lo, v)| + 1
  {
    forall p ensures p in NewUsers(role0, role, d, lo, v + 1) <==> p in NewUsers(role0, role, d, lo, v) + {q} {
      assert NewUserIn(role0, role, d, lo, v + 1, p) <==> NewUserIn(role0, role, d, lo, v, p) || p == q;
    }
    SameSets(NewUsers(role0, role, d, lo, v + 1), NewUsers(role0, role, d, lo, v) + {q});
  }

  // The pages a space has grown by.
  lemma {:induction false} GrowthCounted(mem0: seq<Page>, role0: Roles, maps0: Maps, mem: seq<Page>, role: Roles,
                                         maps: Maps,
                                         d: int, lo: int, v: int, extra: int, ts: set<int>)
    requires Spaces(mem0, role0, maps0) && d in maps0 && Spaces(mem, role, maps) && d in maps && -1 !in role
    requires 0 <= lo <= v <= USER_PAGES && Populated(role0, role, d, lo, v, extra, ts)
    requires forall u :: lo <= u < v ==> u in maps[d] && u !in maps0[d]
    ensures 0 <= d < |mem0| && 0 <= d < |mem|
    ensures |role| == |role0| + v - lo + (if extra == -1 then 0 else 1)
                      + Lacking(mem0[d], ts, ENTRIES) - Lacking(mem[d], ts, ENTRIES)
  {
    NamedIn(mem0, role0, maps0, d);
    NamedIn(mem, role, maps, d);
    TablesCounted(role0, mem0[d], mem, role, maps, d, ts, ENTRIES);
    NoneOwned(mem0, role0, maps0, d, lo, v);
    UsersCounted(role0, mem, role, maps, d, lo, v);
    NewPages(role0, mem[d], role, d, lo, v, extra, ts);
  }

  // They are its new tables, those of lo .. v and maybe one more.
  lemma {:induction false} NewPages(role0: Roles, dir: Page, role: Roles, d: int, lo: int, v: int, extra: int,
                                    ts: set<int>)
    requires Named(role, dir, d) && Populated(role0, role, d, lo, v, extra, ts) && -1 !in role
    ensures |role| == |role0| + |NewTables(role0, role, d, ENTRIES)| + |NewUsers(role0, role, d, lo, v)|
                      + if extra == -1 then 0 else 1
  {
    var tables, users := NewTables(role0, role, d, ENTRIES), NewUsers(role0, role, d, lo, v);
    var more := if extra == -1 then {} else {extra};
    forall p ensures p in role <==> p in role0 || p in tables || p in users || p in more {
      assert p in role && p !in role0 && p != extra ==>
               NewTableBelow(role0, role, d, ENTRIES, p) || NewUserIn(role0, role, d, lo, v, p);
    }
    Parts(role0.Keys, tables, users, more, role.Keys);
  }

  lemma {:induction false} Parts(a: set<int>, b: set<int>, c: set<int>, d: set<int>, all: set<int>)
    requires a !! b && a !! c && a !! d && b !! c && b !! d && c !! d
    requires forall p :: p in all <==> p in a || p in b || p in c || p in d
    ensures |all| == |a| + |b| + |c| + |d|
  {
    SameSets(all, a + b + c + d);
    Sizes(a, b, c, d);
  }

  lemma {:induction false} TableThere(mem: seq<Page>, role: Roles, maps: Maps, d: int, v: int, i: int)
    requires Spaces(mem, role, maps) && d in maps && v in maps[d] && 0 <= v < ALL_PAGES && i == Pdx(v)
    ensures 0 <= d < |mem| && Present(mem[d][i])
  {
    assert DirOk(mem, role, maps, d);
    assert MapOk(mem, maps[d], d, v);
  }

  // Mapped pages have tables.
  lemma {:induction false} EntriesThere(mem: seq<Page>, role: Roles, maps: Maps, d: int, lo: int, hi: int)
    requires Spaces(mem, role, maps) && d in maps && 0 <= lo && hi <= ALL_PAGES
    requires forall u :: lo <= u < hi ==> u in maps[d]
    ensures 0 <= d < |mem| && forall i :: i in Entries(lo, hi) ==> 0 <= i < ENTRIES && Present(mem[d][i])
  {
    NamedIn(mem, role, maps, d);
    forall i | i in Entries(lo, hi) ensures 0 <= i < ENTRIES && Present(mem[d][i]) {
      var u := if i * ENTRIES < lo then lo else i * ENTRIES;
      assert lo <= u < hi && Pdx(u) == i;
      TableThere(mem, role, maps, d, u, i);
    }
  }

  // ----- What the kernel part takes -----

  const KERNEL_TABLES := 64

  // 56 tables lead to physical memory and 8 to devices, wherever the data segment starts.
  ghost function KernelEntries(): (ts: set<int>) {
    Range(512, 568) + Range(1016, 1024)
  }

  // All pages of a range are below the given entries.
  ghost predicate Leads(r: Kmap, ts: set<int>) {
    forall v :: r.virt / PGSIZE <= v < r.virt / PGSIZE + r.Count() ==> 0 <= v < ALL_PAGES && Pdx(v) in ts
  }

  lemma {:induction false} KernelLeads(data: int, k: int)
    requires DataOk(data) && 0 <= k < 4
    ensures Leads(Kernel(data)[k], KernelEntries())
  {
    KernelMapsOk(data);
    var r := Kernel(data)[k];
    assert r.virt / PGSIZE + r.Count() <= (if k < 3 then 581632 else ALL_PAGES);
  }

  // Every one of those entries is needed.
  lemma {:induction false} KernelThere(mem: seq<Page>, role: Roles, maps: Maps, d: int, data: int, i: int)
    requires Spaces(mem, role, maps) && d in maps && DataOk(data) && KernelOk(Kernel(data))
    requires maps[d] == KernelMap(Kernel(data), 4) && i in KernelEntries()
    ensures 0 <= d < |mem| && 0 <= i < ENTRIES && Present(mem[d][i])
  {
    KernelUses(data, i, i * ENTRIES);
    TableThere(mem, role, maps, d, i * ENTRIES, i);
  }

  lemma {:induction false} KernelUses(data: int, i: int, v: int)
    requires DataOk(data) && KernelOk(Kernel(data)) && i in KernelEntries() && v == i * ENTRIES
    ensures v in KernelMap(Kernel(data), 4)
  {
    if i < 568 {
      DirectMap(data, v - USER_PAGES);
    } else {
      assert Kernel(data)[3].Size() == 0x200_0000;
      RangeMapped(Kernel(data), 3, v);
    }
  }

  lemma {:induction false} AllLacking(dir: Page, a: int, b: int, n: nat)
    requires n <= ENTRIES && 0 <= a <= b && forall i :: a <= i < b && i < ENTRIES ==> !Present(dir[i])
    ensures Lacking(dir, Range(a, b), n) == if n <= a then 0 else if n <= b then n - a else b - a
  {
    if n > 0 { AllLacking(dir, a, b, n - 1); }
  }

  lemma {:induction false} BothLacking(dir: Page, ts: set<int>, us: set<int>, n: nat)
    requires n <= ENTRIES && ts !! us
    ensures Lacking(dir, ts + us, n) == Lacking(dir, ts, n) + Lacking(dir, us, n)
  {
    if n > 0 { BothLacking(dir, ts, us, n - 1); }
  }

  lemma {:induction false} KernelLacking()
    ensures Lacking(ZERO, KernelEntries(), ENTRIES) == KERNEL_TABLES
  {
    AllLacking(ZERO, 512, 568, ENTRIES);
    AllLacking(ZERO, 1016, 1024, ENTRIES);
    BothLacking(ZERO, Range(512, 568), Range(1016, 1024), ENTRIES);
  }

  // A directory that is not in use has no tables.
  lemma {:induction false} NamesNothing(mem0: seq<Page>, role0: Roles, maps0: Maps, d: int)
    requires Spaces(mem0, role0, maps0) && d !in maps0
    ensures Named(role0, ZERO, d)
  {
    forall p | p in role0 ensures !(role0[p].Table? && role0[p].dir == d) { assert RoleOk(mem0, role0, maps0, p); }
  }

  lemma {:induction false} KernelTablesCounted(role0: Roles, mem: seq<Page>, role: Roles, maps: Maps, d: int)
    requires Spaces(mem, role, maps) && d in maps && 0 <= d < |mem| && role[d] == Dir && d in role
    requires Named(role0, ZERO, d)
    requires Building(role0, role, d, KernelEntries())
    ensures |NewTables(role0, role, d, ENTRIES)| == KERNEL_TABLES - Lacking(mem[d], KernelEntries(), ENTRIES)
  {
    KernelLacking();
    TablesCounted(role0, ZERO, mem, role, maps, d, KernelEntries(), ENTRIES);
  }

  // The directory and its tables.
  lemma {:induction false} BuildingCounted(mem0: seq<Page>, role0: Roles, maps0: Maps, mem: seq<Page>, role: Roles,
                                           maps: Maps,
                                           d: int)
    requires Spaces(mem0, role0, maps0) && d !in role0 && d !in maps0 && Spaces(mem, role, maps) && d in maps
    requires Building(role0, role, d, KernelEntries()) && forall v :: v in maps[d] ==> v >= USER_PAGES
    ensures 0 <= d < |mem|
    ensures |role| == |role0| + 1 + KERNEL_TABLES - Lacking(mem[d], KernelEntries(), ENTRIES)
  {
    NamedIn(mem, role, maps, d);
    NamesNothing(mem0, role0, maps0, d);
    forall p | p in role ensures !Within(role[p], d, 0, USER_PAGES) { assert RoleOk(mem, role, maps, p); }
    assert role[d] == Dir by { assert DirOk(mem, role, maps, d); }
    KernelTablesCounted(role0, mem, role, maps, d);
    NewKernelPages(role0, mem[d], role, d, KernelEntries());
  }

  lemma {:induction false} NewKernelPages(role0: Roles, dir: Page, role: Roles, d: int, ts: set<int>)
    requires Named(role, dir, d) && Building(role0, role, d, ts) && d in role && d !in role0 && role[d] == Dir
    requires forall p :: p in role ==> !Within(role[p], d, 0, USER_PAGES)
    ensures |role| == |role0| + |NewTables(role0, role, d, ENTRIES)| + 1
  {
    var tables := NewTables(role0, role, d, ENTRIES);
    forall p ensures p in role <==> p in role0 || p in tables || p in {d} {
      assert p in role && p !in role0 && p != d ==> NewTableBelow(role0, role, d, ENTRIES, p);
    }
    Parts(role0.Keys, tables, {d}, {}, role.Keys);
  }

  lemma {:induction false} UserEntries(n: int)
    requires 0 <= n <= USER_PAGES
    ensures Entries(0, n) == Range(0, (n + ENTRIES - 1) / ENTRIES)
  {
    if n > 0 { assert Pdx(n - 1) + 1 == (n + ENTRIES - 1) / ENTRIES; }
  }

  lemma {:induction false} NoUserTable(role0: Roles, role: Roles, dir: Page, e: int, i: int)
    requires Named(role0, ZERO, e) && Named(role, dir, e) && Building(role0, role, e, KernelEntries()) && 0 <= i < 512
    requires e in role && role[e] == Dir
    ensures !Present(dir[i])
  {
    assert Present(dir[i]) ==> NewTable(role[Ppn(dir[i])], e, KernelEntries());
  }

  // A new space has no table for user pages yet.
  lemma {:induction false} UserTables(mem0: seq<Page>, role0: Roles, maps0: Maps, mem: seq<Page>, role: Roles,
                                      maps: Maps,
                                      e: int, n: int)
    requires Spaces(mem0, role0, maps0) && e !in role0 && e !in maps0 && Spaces(mem, role, maps) && e in maps
    requires Building(role0, role, e, KernelEntries()) && 0 <= n <= USER_PAGES
    ensures Missing(mem, e, 0, n) == (n + ENTRIES - 1) / ENTRIES
  {
    NamedIn(mem, role, maps, e);
    NamesNothing(mem0, role0, maps0, e);
    assert role[e] == Dir by { assert DirOk(mem, role, maps, e); }
    var m := (n + ENTRIES - 1) / ENTRIES;
    forall i | 0 <= i < m ensures !Present(mem[e][i]) { NoUserTable(role0, role, mem[e], e, i); }
    UserEntries(n);
    AllLacking(mem[e], 0, m, ENTRIES);
  }

  // A new space has no user pages, and the others are as they were.
  // Of the first n virtual pages all are mapped, or none.
  ghost predicate Backed(m: map<int, Word>, n: int) {
    forall v :: 0 <= v < n ==> v in m
  }

  ghost predicate Vacant(m: map<int, Word>, n: int) {
    forall v :: 0 <= v < n ==> v !in m
  }

  lemma {:induction false} SourceKept(maps: Maps, maps': Maps, d: int, e: int, kernel: map<int, Word>, n: int)
    requires Changed(maps, maps', e, kernel) && d in maps && d != e && n <= USER_PAGES
    requires Backed(maps[d], n) && forall v :: v in kernel ==> v >= USER_PAGES
    ensures d in maps' && maps'[d] == maps[d] && Backed(maps'[d], n) && Vacant(maps'[e], n)
  {
  }

  lemma {:induction false} HandedWider(role: Roles, role': Roles, d: int, lo: int, n: int, p: int, ts: set<int>,
                                       us: set<int>)
    requires Handed(role, role', d, lo, n, p, ts) && ts <= us
    ensures Handed(role, role', d, lo, n, p, us)
  {
  }

  lemma {:induction false} ShortWider(mem: seq<Page>, d: int, ts: set<int>, us: set<int>)
    requires ts <= us
    ensures Short(mem, d, ts) ==> Short(mem, d, us)
  {
  }

  lemma {:induction false} RangeEntries(r: Kmap, ts: set<int>)
    requires r.Ok() && Leads(r, ts)
    ensures r.virt / PGSIZE + r.Count() <= ALL_PAGES && Entries(r.virt / PGSIZE, r.virt / PGSIZE + r.Count()) <= ts
  {
    RangeFits(r);
    var lo, hi := r.virt / PGSIZE, r.virt / PGSIZE + r.Count();
    forall i | i in Entries(lo, hi) ensures i in ts {
      var u := if i * ENTRIES < lo then lo else i * ENTRIES;
      assert lo <= u < hi && Pdx(u) == i;
    }
  }

  lemma {:induction false} RangeHanded(r: Kmap, role: Roles, role': Roles, d: int, n: int, ts: set<int>)
    requires r.Ok() && Leads(r, ts) && 0 <= Last(r.virt, r.Size()) < ALL_PAGES
    requires Handed(role, role', d, r.virt / PGSIZE, n, r.physStart / PGSIZE,
                    Entries(r.virt / PGSIZE, Last(r.virt, r.Size()) + 1))
    ensures Handed(role, role', d, r.virt / PGSIZE, n, r.physStart / PGSIZE, ts)
  {
    RangeFits(r);
    RangeEntries(r, ts);
    HandedWider(role, role', d, r.virt / PGSIZE, n, r.physStart / PGSIZE,
                Entries(r.virt / PGSIZE, r.virt / PGSIZE + r.Count()), ts);
  }

  // The tables mappages() made.
  lemma {:induction false} HandedCounted(mem0: seq<Page>, role0: Roles, maps0: Maps, mem: seq<Page>, role: Roles,
                                         maps: Maps,
                                         d: int, lo: int, n: int, hi: int, p: int)
    requires Spaces(mem0, role0, maps0) && d in maps0 && Spaces(mem, role, maps) && d in maps
    requires 0 <= lo && 0 <= n && lo + n <= hi <= ALL_PAGES
    requires MayMap(role0, lo, hi - 1, p) && Handed(role0, role, d, lo, n, p, Entries(lo, hi))
    ensures 0 <= d < |mem0| && 0 <= d < |mem|
    ensures |role| == |role0| + Missing(mem0, d, lo, hi) - Missing(mem, d, lo, hi)
  {
    NamedIn(mem0, role0, maps0, d);
    NamedIn(mem, role, maps, d);
    TablesCounted(role0, mem0[d], mem, role, maps, d, Entries(lo, hi), ENTRIES);
    var tables := NewTables(role0, role, d, ENTRIES);
    forall q ensures q in role <==> q in role0 || q in tables {
      assert q in role && q !in role0 ==> NewTableBelow(role0, role, d, ENTRIES, q);
    }
    Parts(role0.Keys, tables, {}, {}, role.Keys);
  }

  class Vm {
    const first: int  // the allocatable pages, from the end of the kernel
    const top: int  // to PHYSTOP

    var mem: seq<Page>
    var freelist: Word

    ghost var free: List
    ghost var role: Roles
    ghost var maps: Maps

    ghost predicate Books()
      reads this
    {
      FreeOk(mem, freelist, free, role, first, top)
    }

    ghost predicate Valid()
      reads this
    {
      Books() && Spaces(mem, role, maps)
    }

    // Before kinit1() nothing is free.
    constructor (first: int, top: int, mem: seq<Page>)
      requires 0 < first <= top <= |mem| && top <= USER_PAGES
      ensures Valid() && free == Nil && maps == map[]
      ensures role.Keys == Range(first, top) && forall p :: p in role ==> role[p] == Held
    {
      this.first, this.top, this.mem, this.freelist := first, top, mem, 0;
      this.free, this.role, this.maps := Nil, map p | p in Range(first, top) :: Held, map[];
    }

    // A free page, or -1. Its contents are whatever kfree() left there.
    method KAlloc() returns (p: int)
      requires Valid()
      modifies this`freelist, this`free, this`role
      ensures Valid() && (p == -1 <==> old(free) == Nil)
      ensures p == -1 ==> unchanged(this)
      ensures p != -1 ==>
                first <= p < top && p !in old(role) && role == old(role)[p := Held] && old(free) == Cons(p, free)
    {
      if freelist == 0 { return -1; }
      p := PageAt(freelist);
      assert p in Pages(free);
      Taken(mem, role, maps, p);
      free, role, freelist := free.rest, role[p := Held], mem[p][0];
    }

    // Free a page in use. What still refers to it is the caller's business.
    method KFree(p: int)
      requires Books() && p in role
      modifies this`mem, this`freelist, this`free, this`role
      ensures Books() && role == old(role) - {p} && free == Cons(p, old(free))
      ensures 0 <= p < |old(mem)| && mem == old(mem)[p := JUNK[0 := old(freelist)]]
    {
      ChainKept(mem, p, JUNK[0 := freelist], freelist, free);
      mem := mem[p := JUNK];
      mem := mem[p := mem[p][0 := freelist]];
      assert mem == old(mem)[p := JUNK[0 := freelist]];
      free, role, freelist := Cons(p, free), role - {p}, Addr(p);
    }

    // Free a page that nothing refers to.
    method Return(p: int)
      requires Valid() && p in role && role[p] == Held
      modifies this`mem, this`freelist, this`free, this`role
      ensures Valid() && role == old(role) - {p} && 0 <= p < |old(mem)| == |mem| && mem == old(mem)[p := mem[p]]
    {
      Scribbled(mem, role, maps, p, JUNK[0 := freelist]);
      Returned(mem[p := JUNK[0 := freelist]], role, maps, p);
      KFree(p);
    }

    // A page just allocated is overwritten.
    method Fill(p: int, x: Page)
      requires Valid() && p in role && role[p] == Held
      modifies this`mem
      ensures Valid() && 0 <= p < |old(mem)| && mem == old(mem)[p := x]
    {
      Scribbled(mem, role, maps, p, x);
      ChainKept(mem, p, x, freelist, free);
      mem := mem[p := x];
    }

    // Give the whole pages between two addresses to the allocator.
    method FreeRange(vstart: int, vend: int)
      requires Valid() && KERNBASE <= vstart && (vend - KERNBASE) / PGSIZE <= top
      requires forall p :: PageUp(vstart - KERNBASE) <= p < top ==> p in role && role[p] == Held
      modifies this`mem, this`freelist, this`free, this`role
      ensures Valid() && |mem| == |old(mem)|
      ensures role == old(role) - Range(PageUp(vstart - KERNBASE), (vend - KERNBASE) / PGSIZE)
    {
      var start := PageUp(vstart - KERNBASE);
      ghost var end := (vend - KERNBASE) / PGSIZE;
      var p := start;
      while Fits(p, vend)
        invariant start <= p && (p == start || p <= end)
        invariant Valid() && |mem| == |old(mem)| && role == old(role) - Range(start, p)
        decreases end - p
      {
        RangeLess(old(role), role, start, p);
        Return(p);
        p := p + 1;
      }
    }

    // The table with the entry of virtual page v, created on demand. -1 if there is none.
    method WalkPgdir(d: int, v: int, alloc: bool, ghost ts: set<int>) returns (t: int)
      requires Valid() && d in maps && 0 <= v < ALL_PAGES && (alloc ==> Pdx(v) in ts)
      modifies this`mem, this`freelist, this`free, this`role
      ensures Valid() && Grown(old(role), role, d, ts) && Kept(old(mem), old(role), mem, role)
      ensures 0 <= d < |mem| == |old(mem)|
      ensures t == -1 <==> !Present(old(mem)[d][Pdx(v)]) && (!alloc || old(free) == Nil)
      ensures t == -1 || !alloc ==> unchanged(this)
      ensures t != -1 ==> Present(mem[d][Pdx(v)]) && t == TableOf(mem, d, v)
    {
      assert DirOk(mem, role, maps, d);
      var pde := mem[d][Pdx(v)];
      if Present(pde) {
        return Ppn(pde);
      }
      if !alloc { return -1; }
      t := KAlloc();
      if t == -1 { return; }
      Fill(t, ZERO);
      TableMade(mem, role, maps, d, Pdx(v), t);
      ChainKept(mem, d, mem[d][Pdx(v) := Entry(t, 6)], freelist, free);
      mem := mem[d := mem[d][Pdx(v) := Entry(t, 6)]];
      role := role[t := Table(d, Pdx(v))];
    }

    // Write an absent entry, whose table exists.
    method SetPte(d: int, v: int, w: Word)
      requires Valid() && d in maps && 0 <= d < |mem| && 0 <= v < ALL_PAGES && Present(mem[d][Pdx(v)])
      requires v !in maps[d] && Present(w) && (v < USER_PAGES ==> Ppn(w) in role && role[Ppn(w)] == Held)
      modifies this`mem, this`role, this`maps
      ensures Valid() && Changed(old(maps), maps, d, With(old(maps)[d], v, w)) && role == Mapped(old(role), d, v, w)
      ensures Kept(old(mem), old(role), mem, role)
    {
      PteSet(mem, role, maps, d, v, w);
      var t := TableOf(mem, d, v);
      ChainKept(mem, t, mem[t][Ptx(v) := w], freelist, free);
      mem := mem[t := mem[t][Ptx(v) := w]];
      role, maps := Mapped(role, d, v, w), maps[d := With(maps[d], v, w)];
    }

    // Free the page of a present user entry, then clear the entry.
    method Unmap(d: int, v: int, t: int)
      requires Valid() && d in maps && 0 <= d < |mem| && v in maps[d] && 0 <= v < USER_PAGES && t == TableOf(mem, d, v)
      modifies this`mem, this`freelist, this`free, this`role, this`maps
      ensures Valid() && Changed(old(maps), maps, d, old(maps)[d] - {v}) && role == old(role) - {Ppn(old(maps)[d][v])}
      ensures Kept(old(mem), old(role), mem, role)
    {
      assert DirOk(mem, role, maps, d);
      assert MapOk(mem, maps[d], d, v);
      PteCleared(mem, role, maps, d, v);
      var p := Ppn(mem[t][Ptx(v)]);
      ghost var cleared, junk := mem[t := mem[t][Ptx(v) := 0]], JUNK[0 := freelist];
      Scribbled(cleared, role[p := Held], maps[d := maps[d] - {v}], p, junk);
      Returned(cleared[p := junk], role[p := Held], maps[d := maps[d] - {v}], p);
      KFree(p);
      ChainKept(mem, t, mem[t][Ptx(v) := 0], freelist, free);
      mem := mem[t := mem[t][Ptx(v) := 0]];
      assert mem == cleared[p := junk] && role == old(role)[p := Held] - {p};
      maps := maps[d := maps[d] - {v}];
    }

    // One round of the loop of mappages().
    method MapOne(d: int, v: int, p: int, perm: int, ghost ts: set<int>) returns (ok: bool)
      requires Valid() && d in maps && 0 <= v < ALL_PAGES && 0 <= p < ALL_PAGES && 0 <= perm < PGSIZE
      requires v !in maps[d] && (v < USER_PAGES ==> p in role && role[p] == Held) && Pdx(v) in ts
      modifies this`mem, this`freelist, this`free, this`role, this`maps
      ensures !ok ==> unchanged(this) && free == Nil && Short(mem, d, ts)
      ensures ok ==>
                && Valid() && Changed(old(maps), maps, d, With(old(maps)[d], v, Entry(p, perm)))
                && Handed(old(role), role, d, v, 1, p, ts) && Kept(old(mem), old(role), mem, role)
    {
      var t := WalkPgdir(d, v, true, ts);
      if t == -1 { return false; }
      ghost var mid, before := role, mem;
      GrownThenMapped(old(role), mid, d, v, p, perm, ts);
      SetPte(d, v, Entry(p, perm));
      KeptMore(old(mem), old(role), before, mid, mem, role);
      return true;
    }

    // Map virtual pages a .. last to consecutive pages from p on. When memory runs out, `done`
    // of them stay mapped.
    method MapLoop(d: int, lo: int, last: int, p0: int, perm: int, ghost ts: set<int>) returns (r: int, ghost done: int)
      requires Valid() && d in maps && 0 <= lo <= last < ALL_PAGES && 0 <= perm < PGSIZE
      requires 0 <= p0 && p0 + last - lo < ALL_PAGES && MayMap(role, lo, last, p0)
      requires Unmapped(maps[d], lo, last) && Covers(ts, lo, last)
      modifies this`mem, this`freelist, this`free, this`role, this`maps
      ensures Valid() && 0 <= done <= last - lo + 1 && r == if done == last - lo + 1 then 0 else -1
      ensures Changed(old(maps), maps, d, old(maps)[d] + Stretch(lo, done, p0, perm))
      ensures Handed(old(role), role, d, lo, done, p0, ts) && Kept(old(mem), old(role), mem, role)
      ensures r != 0 ==> free == Nil && Short(mem, d, ts)
    {
      var a, p := lo, p0;
      done := 0;
      NothingMapped(maps, d, lo, p0, perm);
      while true
        invariant lo <= a <= last && done == a - lo && p == p0 + done
        invariant Valid() && Changed(old(maps), maps, d, old(maps)[d] + Stretch(lo, done, p0, perm))
        invariant Handed(old(role), role, d, lo, done, p0, ts) && Kept(old(mem), old(role), mem, role)
        decreases last - a
      {
        ghost var mid, before, spaces := role, mem, maps;
        var ok := MapOne(d, a, p, perm, ts);
        if !ok { return -1, done; }
        OneMoreMapped(old(maps), spaces, maps, d, lo, done, p0, perm, a, p);
        HandedMore(old(role), mid, role, d, lo, done, p0, a, p, ts);
        KeptMore(old(mem), old(role), before, mid, mem, role);
        done := done + 1;
        if a == last { break; }
        a, p := a + 1, p + 1;
      }
      return 0, done;
    }

    // The same in page numbers, and what it takes.
    method MapStretch(d: int, lo: int, last: int, p0: int, perm: int) returns (r: int, ghost done: int)
      requires Valid() && d in maps && 0 <= lo <= last < ALL_PAGES && 0 <= perm < PGSIZE
      requires 0 <= p0 && p0 + last - lo < ALL_PAGES && MayMap(role, lo, last, p0)
      requires Unmapped(maps[d], lo, last)
      modifies this`mem, this`freelist, this`free, this`role, this`maps
      ensures Valid() && 0 <= done <= last - lo + 1 && r == if done == last - lo + 1 then 0 else -1
      ensures r == 0 <==> Missing(old(mem), d, lo, last + 1) <= |Pages(old(free))|
      ensures Changed(old(maps), maps, d, old(maps)[d] + Stretch(lo, done, p0, perm))
      ensures Handed(old(role), role, d, lo, done, p0, Entries(lo, last + 1)) && Kept(old(mem), old(role), mem, role)
      ensures r != 0 ==> free == Nil && Short(mem, d, Entries(lo, last + 1))
    {
      AllEntries(lo, last);
      Conserved(mem, freelist, free, role, first, top);
      r, done := MapLoop(d, lo, last, p0, perm, Entries(lo, last + 1));
      MapCounted(old(mem), old(role), old(maps), |Pages(old(free))|, d, lo, done, last, p0, perm);
    }

    // Map the pages of va .. va + size to consecutive pages from pa on. An entry that is already
    // present would be a panic ("remap"). It fails exactly when the tables that are missing are more than
    // the free pages; what could be mapped stays mapped.
    method MapPages(d: int, va: int, size: int, pa: int, perm: int) returns (r: int, ghost done: int)
      requires Valid() && d in maps && 0 <= va && 0 < size && va + size <= UINT_RANGE && 0 <= perm < PGSIZE
      requires pa % PGSIZE == 0 && 0 <= pa && pa / PGSIZE + Last(va, size) - va / PGSIZE < ALL_PAGES
      requires Unmapped(maps[d], va / PGSIZE, Last(va, size))
      requires MayMap(role, va / PGSIZE, Last(va, size), pa / PGSIZE)
      modifies this`mem, this`freelist, this`free, this`role, this`maps
      ensures Valid() && 0 <= done <= Last(va, size) - va / PGSIZE + 1
      ensures r == if done == Last(va, size) - va / PGSIZE + 1 then 0 else -1
      ensures r == 0 <==> Missing(old(mem), d, va / PGSIZE, Last(va, size) + 1) <= |Pages(old(free))|
      ensures Changed(old(maps), maps, d, old(maps)[d] + Stretch(va / PGSIZE, done, pa / PGSIZE, perm))
      ensures Handed(old(role), role, d, va / PGSIZE, done, pa / PGSIZE, Entries(va / PGSIZE, Last(va, size) + 1))
      ensures Kept(old(mem), old(role), mem, role)
      ensures r != 0 ==> free == Nil && Short(mem, d, Entries(va / PGSIZE, Last(va, size) + 1))
    {
      r, done := MapStretch(d, va / PGSIZE, Last(va, size), pa / PGSIZE, perm);
    }

    lemma {:induction false} MapCounted(mem0: seq<Page>, role0: Roles, maps0: Maps, n0: int, d: int, lo: int, n: int,
                                        last: int,
                                        p: int, perm: int)
      requires d in maps0 && Spaces(mem0, role0, maps0) && n0 + |role0| == top - first && Valid()
      requires 0 <= lo && 0 <= n <= last - lo + 1 && last < ALL_PAGES && 0 <= p && p + n <= ALL_PAGES
      requires 0 <= perm < PGSIZE
      requires Changed(maps0, maps, d, maps0[d] + Stretch(lo, n, p, perm))
      requires MayMap(role0, lo, last, p) && Handed(role0, role, d, lo, n, p, Entries(lo, last + 1))
      requires n != last - lo + 1 ==> free == Nil && Short(mem, d, Entries(lo, last + 1))
      ensures n == last - lo + 1 <==> Missing(mem0, d, lo, last + 1) <= n0
    {
      Conserved(mem, freelist, free, role, first, top);
      HandedCounted(mem0, role0, maps0, mem, role, maps, d, lo, n, last + 1, p);
      if n != last - lo + 1 {
        ShortLacking(mem, d, Entries(lo, last + 1));
      } else {
        EntriesThere(mem, role, maps, d, lo, last + 1);
        NoneLacking(mem[d], Entries(lo, last + 1), ENTRIES);
      }
    }

    // Of the user pages lo .. v of d, those that were mapped have been freed.
    ghost predicate Freed(mem0: seq<Page>, role0: Roles, maps0: Maps, d: int, lo: int, v: int)
      requires d in maps0
      reads this
    {
      && Valid() && Changed(maps0, maps, d, maps0[d] - Range(lo, v))
      && Dropped(role0, role, d, lo, v) && Kept(mem0, role0, mem, role)
    }

    lemma {:induction false} StillFreed(d: int, lo: int, v: int, v': int, mem0: seq<Page>, role0: Roles, maps0: Maps)
      requires d in maps0 && lo <= v <= v' && Freed(mem0, role0, maps0, d, lo, v)
      requires forall u :: v <= u < v' ==> u !in maps[d]
      ensures Freed(mem0, role0, maps0, d, lo, v')
    {
      NoneOwned(mem, role, maps, d, v, v');
      RangeSame(maps0[d], maps[d], lo, v, v');
      DropNone(role0, role, d, lo, v, v');
    }

    method FreeOne(d: int, v: int, t: int, ghost lo: int, ghost mem0: seq<Page>, ghost role0: Roles, ghost maps0: Maps)
      requires d in maps0 && lo <= v && Freed(mem0, role0, maps0, d, lo, v)
      requires 0 <= d < |mem| && v in maps[d] && 0 <= v < USER_PAGES && t == TableOf(mem, d, v)
      modifies this`mem, this`freelist, this`free, this`role, this`maps
      ensures Freed(mem0, role0, maps0, d, lo, v + 1)
    {
      OnlyOwner(mem, role, maps, d, v);
      DropOne(role0, role, d, lo, v, Ppn(maps[d][v]));
      RangeLess(maps0[d], maps[d], lo, v);
      ghost var mid, before, spaces := role, mem, maps;
      Unmap(d, v, t);
      ChangedTwice(maps0, spaces, maps, d);
      KeptMore(mem0, role0, before, mid, mem, role);
    }

    // One round of the loop of deallocuvm(): the next page to look at. No page before it is left.
    method DeallocStep(d: int, v: int, ghost lo: int, ghost hi: int,
                       ghost mem0: seq<Page>, ghost role0: Roles, ghost maps0: Maps) returns (v': int)
      requires d in maps0 && 0 <= lo <= v < hi <= USER_PAGES && Freed(mem0, role0, maps0, d, lo, v)
      modifies this`mem, this`freelist, this`free, this`role, this`maps
      ensures v < v' && Freed(mem0, role0, maps0, d, lo, if v' < hi then v' else hi)
    {
      v' := v + 1;
      var t := WalkPgdir(d, v, false, {});
      if t == -1 {
        NoTable(mem, role, maps, d, v);
        v' := (Pdx(v) + 1) * ENTRIES - 1 + 1;
        StillFreed(d, lo, v, if v' < hi then v' else hi, mem0, role0, maps0);
      } else {
        assert DirOk(mem, role, maps, d);
        assert MapOk(mem, maps[d], d, v);
        PteInTable(d, v);
        if Present(mem[t][Ptx(v)]) {
          FreeOne(d, v, t, lo, mem0, role0, maps0);
        } else {
          StillFreed(d, lo, v, v + 1, mem0, role0, maps0);
        }
      }
    }

    lemma {:induction false} PteInTable(d: int, v: int)
      requires Valid() && d in maps && 0 <= d < |mem| && 0 <= v < ALL_PAGES && Present(mem[d][Pdx(v)])
      ensures 0 <= TableOf(mem, d, v) < |mem| && Lookup(mem, d, v) == mem[TableOf(mem, d, v)][Ptx(v)]
    {
      assert DirOk(mem, role, maps, d);
      assert PdeOk(mem, role, d, Pdx(v));
      assert RoleOk(mem, role, maps, TableOf(mem, d, v));
    }

    // Shrink an address space from oldsz to newsz: exactly the pages between are freed.
    method DeallocUvm(d: int, oldsz: int, newsz: int) returns (r: int)
      requires Valid() && d in maps && 0 <= newsz < UINT_RANGE && 0 <= oldsz <= KERNBASE
      modifies this`mem, this`freelist, this`free, this`role, this`maps
      ensures r == if newsz >= oldsz then oldsz else newsz
      ensures Freed(old(mem), old(role), old(maps), d, PageUp(newsz), PageUp(oldsz))
    {
      ghost var lo, mem0, role0, maps0 := PageUp(newsz), mem, role, maps;
      assert maps[d] - Range(lo, lo) == maps[d];
      if newsz >= oldsz {
        RangeSame(maps[d], maps[d], lo, lo, lo);
        return oldsz;
      }
      var v := PageUp(newsz);
      ghost var hi := PageUp(oldsz);
      while Below(v, oldsz)
        invariant lo <= v && Freed(mem0, role0, maps0, d, lo, if v < hi then v else hi)
        decreases hi - v
      {
        v := DeallocStep(d, v, lo, hi, mem0, role0, maps0);
      }
      return newsz;
    }

    // The tables of a directory that has lost its meaning are freed.
    method FreeTables(d: int, ghost role0: Roles, ghost maps0: Maps)
      requires Valid() && TablesGone(role0, role, d, 0) && d in role0 && d in maps0 && Spaces(mem, role0, maps0)
      requires 0 <= d < |mem|
      modifies this`mem, this`freelist, this`free, this`role
      ensures Valid() && TablesGone(role0, role, d, ENTRIES) && Kept(old(mem), role0, mem, role)
    {
      assert DirOk(mem, role0, maps0, d);
      ghost var mem0 := mem;
      var i := 0;
      while i < ENTRIES
        invariant 0 <= i <= ENTRIES && |mem| == |mem0| && mem[d] == mem0[d]
        invariant Valid() && TablesGone(role0, role, d, i) && Kept(mem0, role0, mem, role)
      {
        assert PdeOk(mem0, role0, d, i);
        TableAt(mem0, role0, maps0, d, i);
        if Present(mem[d][i]) {
          TableGone(role0, role, d, i, Ppn(mem[d][i]));
          Return(Ppn(mem[d][i]));
        }
        i := i + 1;
      }
    }

    // A directory without user pages is freed with its tables.
    method FreeDir(d: int)
      requires Valid() && d in maps && forall v :: v in maps[d] ==> v >= USER_PAGES
      modifies this`mem, this`freelist, this`free, this`role, this`maps
      ensures Valid() && maps == old(maps) - {d} && Gone(old(role), role, d) && Kept(old(mem), old(role), mem, role)
    {
      NoneOwned(mem, role, maps, d, 0, USER_PAGES);
      Dismantle(mem, role, maps, d);
      assert DirOk(mem, role, maps, d);
      role, maps := Dismantled(role, d), maps - {d};
      FreeTables(d, old(role), old(maps));
      AllGone(old(mem), old(role), old(maps), role, d);
      Return(d);
    }

    // Free an address space: exactly its directory, its tables and its pages.
    method FreeVm(d: int)
      requires Valid() && d in maps
      modifies this`mem, this`freelist, this`free, this`role, this`maps
      ensures Valid() && maps == old(maps) - {d} && Gone(old(role), role, d) && Kept(old(mem), old(role), mem, role)
    {
      RolesInRange(mem, role, maps);
      var r := DeallocUvm(d, KERNBASE, 0);
      ghost var mid, before, spaces := role, mem, maps;
      FreeDir(d);
      GoneAfterDropped(old(role), mid, role, d);
      KeptMore(old(mem), old(role), before, mid, mem, role);
      ChangedThenGone(old(maps), spaces, maps, d);
    }

    // mappages() for one page.
    method MapPage(d: int, v: int, p: int, perm: int) returns (r: int, ghost done: int)
      requires Valid() && d in maps && 0 <= v < USER_PAGES && v !in maps[d] && 0 <= perm < PGSIZE
      requires p in role && role[p] == Held
      modifies this`mem, this`freelist, this`free, this`role, this`maps
      ensures Valid() && 0 <= p < ALL_PAGES && Kept(old(mem), old(role), mem, role)
      ensures done == (if r == 0 then 1 else 0) && Handed(old(role), role, d, v, done, p, Entries(v, v + 1))
      ensures Changed(old(maps), maps, d, old(maps)[d] + Stretch(v, done, p, perm))
      ensures r != 0 ==> free == Nil && Short(mem, d, Entries(v, v + 1))
    {
      AtPage(v);
      AtPage(p);
      r, done := MapPages(d, v * PGSIZE, PGSIZE, p * PGSIZE, perm);
    }

    // Map one page that has been allocated.
    method MapUser(d: int, v: int, p: int, perm: int, ghost ts: set<int>) returns (ok: bool)
      requires Valid() && d in maps && 0 <= v < USER_PAGES && v !in maps[d] && 0 <= perm < PGSIZE
      requires p in role && role[p] == Held && Pdx(v) in ts
      modifies this`mem, this`freelist, this`free, this`role, this`maps
      ensures Valid() && 0 <= p < ALL_PAGES && Kept(old(mem), old(role), mem, role)
      ensures !ok ==> maps == old(maps) && Handed(old(role), role, d, v, 0, p, ts) && free == Nil && Short(mem, d, ts)
      ensures ok ==>
                && Changed(old(maps), maps, d, With(old(maps)[d], v, Entry(p, perm)))
                && Handed(old(role), role, d, v, 1, p, ts)
    {
      var r;
      ghost var done;
      r, done := MapPage(d, v, p, perm);
      assert Entries(v, v + 1) <= ts;
      HandedWider(old(role), role, d, v, done, p, Entries(v, v + 1), ts);
      ShortWider(mem, d, Entries(v, v + 1), ts);
      ok := r == 0;
      OneMapped(old(maps), maps, d, v, p, perm);
    }

    // Allocate a page, fill it with x and map it. Without memory p is -1, or p is not mapped.
    method NewPage(d: int, v: int, x: Page, perm: int, ghost ts: set<int>) returns (p: int, ok: bool)
      requires Valid() && d in maps && 0 <= v < USER_PAGES && v !in maps[d] && 0 <= perm < PGSIZE && Pdx(v) in ts
      modifies this`mem, this`freelist, this`free, this`role, this`maps
      ensures Valid() && Kept(old(mem), old(role), mem, role)
      ensures p == -1 ==> !ok && unchanged(this)
      ensures !ok ==> free == Nil && (p == -1 || Short(mem, d, ts))
      ensures p != -1 && !ok ==> p !in old(role) && maps == old(maps) && Grown(old(role)[p := Held], role, d, ts)
      ensures ok ==>
                && 0 <= p < |mem| && p < ALL_PAGES && mem[p] == x && Added(old(role), role, d, v, p, ts)
                && Changed(old(maps), maps, d, With(old(maps)[d], v, Entry(p, perm)))
    {
      p := KAlloc();
      if p == -1 { return -1, false; }
      Fill(p, x);
      ghost var mid, before := role, mem;
      ok := MapUser(d, v, p, perm, ts);
      KeptMore(old(mem), old(role), before, mid, mem, role);
      if ok {
        TakenAndMapped(old(role), role, d, v, p, ts);
      } else {
        TakenNotMapped(old(role), role, d, v, p, ts);
      }
    }

    // d has grown by pages lo .. v that show xs with flags fs.
    ghost predicate Growing(mem0: seq<Page>, role0: Roles, maps0: Maps, d: int, lo: int, v: int,
                            xs: seq<Page>, fs: seq<int>, extra: int, ts: set<int>)
      requires d in maps0
      reads this
    {
      && Valid() && d in maps && maps == maps0[d := maps[d]]
      && Widened(maps0[d], maps[d], lo, v) && AllShow(mem, maps[d], lo, v, xs, fs)
      && Populated(role0, role, d, lo, v, extra, ts) && Kept(mem0, role0, mem, role)
    }

    lemma {:induction false} NotGrownYet(d: int, lo: int, xs: seq<Page>, fs: seq<int>, ts: set<int>)
      requires Valid() && d in maps && lo <= |xs| == |fs|
      ensures Growing(mem, role, maps, d, lo, lo, xs, fs, -1, ts)
    {
      assert maps == maps[d := maps[d]];
    }

    // One more page.
    method GrowStep(d: int, v: int, x: Page, perm: int, ghost lo: int, ghost mem0: seq<Page>, ghost role0: Roles,
                    ghost maps0: Maps, ghost xs: seq<Page>, ghost fs: seq<int>, ghost ts: set<int>)
      returns (p: int, ok: bool)
      requires d in maps0 && 0 <= lo <= v < USER_PAGES && v < |xs| == |fs| && v !in maps0[d]
      requires Growing(mem0, role0, maps0, d, lo, v, xs, fs, -1, ts)
      requires 0 <= perm < PGSIZE && x == xs[v] && fs[v] == perm + 1 - perm % 2 && Pdx(v) in ts
      modifies this`mem, this`freelist, this`free, this`role, this`maps
      ensures Growing(mem0, role0, maps0, d, lo, if ok then v + 1 else v, xs, fs, if ok then -1 else p, ts)
      ensures !ok ==> free == Nil && (p == -1 || Short(mem, d, ts))
    {
      ghost var mid, before, spaces := role, mem, maps;
      p, ok := NewPage(d, v, x, perm, ts);
      if p == -1 { return; }
      StillShow(before, mid, spaces, mem, role, d, lo, v, xs, fs);
      KeptMore(mem0, role0, before, mid, mem, role);
      if ok {
        OneMoreShown(mem, maps0[d], spaces[d], lo, v, xs, fs, p, perm);
        PopulatedMore(role0, mid, role, d, lo, v, p, ts);
      } else {
        PopulatedExtra(role0, mid, role, d, lo, v, p, ts);
      }
    }

    // The pages added since are freed again. Tables made on the way stay with d.
    method Shrink(d: int, oldsz: int, newsz: int, extra: int, ghost v: int, ghost mem0: seq<Page>, ghost role0: Roles,
                  ghost maps0: Maps, ghost xs: seq<Page>, ghost fs: seq<int>, ghost ts: set<int>)
      requires d in maps0 && 0 <= oldsz <= newsz < KERNBASE && PageUp(oldsz) <= v <= PageUp(newsz)
      requires Growing(mem0, role0, maps0, d, PageUp(oldsz), v, xs, fs, extra, ts)
      requires forall u :: PageUp(oldsz) <= u < PageUp(newsz) ==> u !in maps0[d]
      requires forall p :: p in role0 ==> !Within(role0[p], d, PageUp(oldsz), PageUp(newsz))
      modifies this`mem, this`freelist, this`free, this`role, this`maps
      ensures Valid() && maps == maps0 && Grown(role0, role, d, ts) && Kept(mem0, role0, mem, role)
    {
      ghost var mid, before, spaces := role, mem, maps;
      var r := DeallocUvm(d, newsz, oldsz);
      Depopulated(role0, mid, role, d, PageUp(oldsz), v, PageUp(newsz), extra, ts);
      Narrowed(maps0, spaces, maps, d, PageUp(oldsz), v, PageUp(newsz));
      KeptMore(mem0, role0, before, mid, mem, role);
      if extra != -1 {
        Return(extra);
      }
    }

    // Zeroed pages lo .. hi, until memory runs out. A page that could not be mapped is left over.
    method GrowLoop(d: int, lo: int, newsz: int, ghost mem0: seq<Page>, ghost role0: Roles, ghost maps0: Maps,
                    ghost n0: int,
                    ghost hi: int, ghost xs: seq<Page>, ghost fs: seq<int>) returns (ok: bool, p: int, ghost n: int)
      requires 0 <= newsz < KERNBASE && hi == PageUp(newsz) && 0 <= lo <= hi && d in maps0 && |xs| == |fs| == hi
      requires forall u :: lo <= u < hi ==> u !in maps0[d] && xs[u] == ZERO && fs[u] == 7
      requires Spaces(mem0, role0, maps0) && n0 + |role0| == top - first
      requires Growing(mem0, role0, maps0, d, lo, lo, xs, fs, -1, Entries(lo, hi))
      modifies this`mem, this`freelist, this`free, this`role, this`maps
      ensures lo <= n <= hi && (ok ==> n == hi && p == -1)
      ensures Growing(mem0, role0, maps0, d, lo, n, xs, fs, p, Entries(lo, hi))
      ensures ok <==> Missing(mem0, d, lo, hi) + hi - lo <= n0
    {
      var a := lo;
      while Below(a, newsz)
        invariant lo <= a <= hi && Growing(mem0, role0, maps0, d, lo, a, xs, fs, -1, Entries(lo, hi))
        decreases hi - a
      {
        EntryOfPage(lo, a, hi);
        p, ok := GrowStep(d, a, ZERO, 6, lo, mem0, role0, maps0, xs, fs, Entries(lo, hi));
        if !ok {
          CannotGrow(mem0, role0, maps0, n0, d, lo, a, hi, xs, fs, p);
          return false, p, a;
        }
        a := a + 1;
      }
      CouldGrow(mem0, role0, maps0, n0, d, lo, hi, xs, fs);
      return true, -1, a;
    }

    // What allocuvm() does once the sizes are in order.
    method GrowTo(d: int, oldsz: int, newsz: int) returns (ok: bool)
      requires Valid() && d in maps && 0 <= oldsz <= newsz < KERNBASE
      requires forall u :: PageUp(oldsz) <= u < PageUp(newsz) ==> u !in maps[d]
      modifies this`mem, this`freelist, this`free, this`role, this`maps
      ensures ok <==>
                Missing(old(mem), d, PageUp(oldsz), PageUp(newsz)) + PageUp(newsz) - PageUp(oldsz) <= |Pages(old(free))|
      ensures !ok ==>
                && Valid() && maps == old(maps) && Kept(old(mem), old(role), mem, role)
                && Grown(old(role), role, d, Entries(PageUp(oldsz), PageUp(newsz)))
      ensures ok ==>
                Growing(old(mem), old(role), old(maps), d, PageUp(oldsz), PageUp(newsz), seq(PageUp(newsz), _ => ZERO),
                        seq(PageUp(newsz), _ => 7), -1, Entries(PageUp(oldsz), PageUp(newsz)))
    {
      ghost var lo, hi, mem0, role0, maps0 := PageUp(oldsz), PageUp(newsz), mem, role, maps;
      ghost var xs, fs := seq(hi, _ => ZERO), seq(hi, _ => 7);
      NoneOwned(mem, role, maps, d, lo, hi);
      NotGrownYet(d, lo, xs, fs, Entries(lo, hi));
      Conserved(mem, freelist, free, role, first, top);
      var p;
      ghost var n;
      ok, p, n := GrowLoop(d, PageUp(oldsz), newsz, mem0, role0, maps0, |Pages(free)|, hi, xs, fs);
      if !ok { Shrink(d, oldsz, newsz, p, n, mem0, role0, maps0, xs, fs, Entries(lo, hi)); }
    }

    // Grow an address space with zeroed pages. It fails, and leaves the address space as it was, exactly
    // when it would reach the kernel or the new pages and the tables missing for them are more than
    // the free pages.
    method AllocUvm(d: int, oldsz: int, newsz: int) returns (r: int, ghost ok: bool)
      requires Valid() && d in maps && 0 <= oldsz < UINT_RANGE && 0 <= newsz < UINT_RANGE
      requires forall u :: PageUp(oldsz) <= u < PageUp(newsz) ==> u !in maps[d]
      modifies this`mem, this`freelist, this`free, this`role, this`maps
      ensures r == if !ok then 0 else if newsz < oldsz then oldsz else newsz
      ensures newsz >= KERNBASE ==> !ok
      ensures newsz < KERNBASE ==>
                (ok <==> newsz < oldsz || Missing(old(mem), d, PageUp(oldsz), PageUp(newsz))
                                          + PageUp(newsz) - PageUp(oldsz) <= |Pages(old(free))|)
      ensures !ok ==>
                && Valid() && maps == old(maps) && Kept(old(mem), old(role), mem, role)
                && Grown(old(role), role, d, Entries(PageUp(oldsz), PageUp(newsz)))
      ensures newsz >= KERNBASE || newsz < oldsz ==> unchanged(this)
      ensures ok && newsz >= oldsz ==>
                Growing(old(mem), old(role), old(maps), d, PageUp(oldsz), PageUp(newsz), seq(PageUp(newsz), _ => ZERO),
                        seq(PageUp(newsz), _ => 7), -1, Entries(PageUp(oldsz), PageUp(newsz)))
    {
      if newsz >= KERNBASE { return 0, false; }
      if newsz < oldsz { return oldsz, true; }
      var grown := GrowTo(d, oldsz, newsz);
      return if grown then newsz else 0, grown;
    }

    lemma {:induction false} CouldGrow(mem0: seq<Page>, role0: Roles, maps0: Maps, n0: int, d: int, lo: int, hi: int,
                                       xs: seq<Page>, fs: seq<int>)
      requires d in maps0 && 0 <= lo <= hi <= USER_PAGES && Spaces(mem0, role0, maps0) && n0 + |role0| == top - first
      requires forall u :: lo <= u < hi ==> u !in maps0[d]
      requires Growing(mem0, role0, maps0, d, lo, hi, xs, fs, -1, Entries(lo, hi))
      ensures Missing(mem0, d, lo, hi) + hi - lo <= n0
    {
      Conserved(mem, freelist, free, role, first, top);
      GrowthCounted(mem0, role0, maps0, mem, role, maps, d, lo, hi, -1, Entries(lo, hi));
      EntriesThere(mem, role, maps, d, lo, hi);
      NoneLacking(mem[d], Entries(lo, hi), ENTRIES);
    }

    lemma {:induction false} CannotGrow(mem0: seq<Page>, role0: Roles, maps0: Maps, n0: int, d: int, lo: int, v: int,
                                        hi: int,
                                        xs: seq<Page>, fs: seq<int>, extra: int)
      requires d in maps0 && 0 <= lo <= v < hi <= USER_PAGES && Spaces(mem0, role0, maps0)
      requires n0 + |role0| == top - first
      requires forall u :: lo <= u < hi ==> u !in maps0[d]
      requires Growing(mem0, role0, maps0, d, lo, v, xs, fs, extra, Entries(lo, hi))
      requires free == Nil && (extra == -1 || Short(mem, d, Entries(lo, hi)))
      ensures Missing(mem0, d, lo, hi) + hi - lo > n0
    {
      Conserved(mem, freelist, free, role, first, top);
      GrowthCounted(mem0, role0, maps0, mem, role, maps, d, lo, v, extra, Entries(lo, hi));
      if extra != -1 { ShortLacking(mem, d, Entries(lo, hi)); }
    }

    // A new empty directory.
    method NewDir() returns (d: int)
      requires Valid()
      modifies this`mem, this`freelist, this`free, this`role, this`maps
      ensures d == -1 <==> old(free) == Nil
      ensures d == -1 ==> unchanged(this)
      ensures d != -1 ==>
                && Valid() && d !in old(role) && d !in old(maps) && role == old(role)[d := Dir]
                && maps == old(maps)[d := map[]]
                && Kept(old(mem), old(role), mem, role)
    {
      d := KAlloc();
      if d == -1 { return; }
      Fill(d, ZERO);
      DirMade(mem, role, maps, d);
      role, maps := role[d := Dir], maps[d := map[]];
    }

    // One range of the kernel mappings, behind what is mapped already.
    method MapRange(d: int, r: Kmap, ghost ts: set<int>) returns (ok: bool, ghost done: int)
      requires Valid() && d in maps && r.Ok() && Leads(r, ts) && forall v :: v in maps[d] ==> v < r.virt / PGSIZE
      modifies this`mem, this`freelist, this`free, this`role, this`maps
      ensures Valid() && 0 <= done <= r.Count() && (ok ==> done == r.Count())
      ensures r.physStart / PGSIZE + r.Count() <= ALL_PAGES
      ensures Changed(old(maps), maps, d, old(maps)[d] + Stretch(r.virt / PGSIZE, done, r.physStart / PGSIZE, r.perm))
      ensures Handed(old(role), role, d, r.virt / PGSIZE, done, r.physStart / PGSIZE, ts)
      ensures r.virt / PGSIZE >= USER_PAGES
      ensures Kept(old(mem), old(role), mem, role)
      ensures !ok ==> free == Nil && Short(mem, d, ts)
    {
      RangeFits(r);
      var status;
      status, done := MapPages(d, r.virt, r.Size(), r.physStart, r.perm);
      RangeHanded(r, old(role), role, d, done, ts);
      RangeEntries(r, ts);
      ShortWider(mem, d, Entries(r.virt / PGSIZE, r.virt / PGSIZE + r.Count()), ts);
      ok := status == 0;
    }

    // Range k for the new directory d.
    method MapKernel(d: int, km: seq<Kmap>, k: int, ghost mem0: seq<Page>, ghost role0: Roles, ghost maps0: Maps,
                     ghost ts: set<int>)
      returns (ok: bool)
      requires KernelOk(km) && 0 <= k < 4 && Valid() && Changed(maps0, maps, d, KernelMap(km, k)) && Leads(km[k], ts)
      requires Building(role0, role, d, ts) && Kept(mem0, role0, mem, role)
      modifies this`mem, this`freelist, this`free, this`role, this`maps
      ensures Valid() && Building(role0, role, d, ts) && Kept(mem0, role0, mem, role) && d in maps
      ensures maps == maps0[d := maps[d]]
      ensures ok ==> maps[d] == KernelMap(km, k + 1)
      ensures !ok ==> free == Nil && Short(mem, d, ts)
      ensures forall v :: v in maps[d] ==> v >= USER_PAGES
    {
      ghost var mid, before, spaces := role, mem, maps;
      ghost var done;
      assert km[k].Ok();
      ok, done := MapRange(d, km[k], ts);
      ChangedTwice(maps0, spaces, maps, d);
      BuiltMore(role0, mid, role, d, km[k].virt / PGSIZE, done, km[k].physStart / PGSIZE, ts);
      KeptMore(mem0, role0, before, mid, mem, role);
    }

    // A new space with the kernel part only, which takes a directory and KERNEL_TABLES tables. -1, and
    // everything as before, exactly when that many pages are not free.
    method SetupKvm(data: int) returns (d: int)
      requires Valid() && DataOk(data)
      modifies this`mem, this`freelist, this`free, this`role, this`maps
      ensures Valid() && Kept(old(mem), old(role), mem, role) && KernelOk(Kernel(data))
      ensures d != -1 <==> 1 + KERNEL_TABLES <= |Pages(old(free))|
      ensures d == -1 ==> role == old(role) && maps == old(maps)
      ensures d != -1 ==>
                && d !in old(role) && d !in old(maps) && Building(old(role), role, d, KernelEntries())
                && Changed(old(maps), maps, d, KernelMap(Kernel(data), 4)) && |role| == |old(role)| + 1 + KERNEL_TABLES
    {
      KernelMapsOk(data);
      Conserved(mem, freelist, free, role, first, top);
      d := NewDir();
      if d == -1 { return; }
      JustDir(old(role), role, d, KernelEntries());
      var km := Kernel(data);
      var k := 0;
      while k < 4
        invariant 0 <= k <= 4 && Valid() && Changed(old(maps), maps, d, KernelMap(km, k))
        invariant Building(old(role), role, d, KernelEntries()) && Kept(old(mem), old(role), mem, role)
      {
        KernelLeads(data, k);
        var ok := MapKernel(d, km, k, old(mem), old(role), old(maps), KernelEntries());
        if !ok {
          CannotBuild(old(mem), old(role), old(maps), |Pages(old(free))|, d);
          Abandon(d, old(mem), old(role), old(maps), KernelEntries());
          return -1;
        }
        k := k + 1;
      }
      CouldBuild(old(mem), old(role), old(maps), |Pages(old(free))|, d, data);
    }

    lemma {:induction false} CannotBuild(mem0: seq<Page>, role0: Roles, maps0: Maps, n0: int, d: int)
      requires Spaces(mem0, role0, maps0) && n0 + |role0| == top - first && d !in role0 && d !in maps0
      requires Valid() && d in maps && Building(role0, role, d, KernelEntries())
      requires forall v :: v in maps[d] ==> v >= USER_PAGES
      requires free == Nil && Short(mem, d, KernelEntries())
      ensures n0 < 1 + KERNEL_TABLES
    {
      Conserved(mem, freelist, free, role, first, top);
      BuildingCounted(mem0, role0, maps0, mem, role, maps, d);
      ShortLacking(mem, d, KernelEntries());
    }

    lemma {:induction false} CouldBuild(mem0: seq<Page>, role0: Roles, maps0: Maps, n0: int, d: int, data: int)
      requires Spaces(mem0, role0, maps0) && n0 + |role0| == top - first && d !in role0 && d !in maps0
      requires Valid() && d in maps && Building(role0, role, d, KernelEntries())
      requires DataOk(data) && KernelOk(Kernel(data)) && maps[d] == KernelMap(Kernel(data), 4)
      ensures 1 + KERNEL_TABLES <= n0 && |role| == |role0| + 1 + KERNEL_TABLES
    {
      Conserved(mem, freelist, free, role, first, top);
      BuildingCounted(mem0, role0, maps0, mem, role, maps, d);
      assert DirOk(mem, role, maps, d);
      forall i | i in KernelEntries() ensures 0 <= i < ENTRIES && Present(mem[d][i]) {
        KernelThere(mem, role, maps, d, data, i);
      }
      NoneLacking(mem[d], KernelEntries(), ENTRIES);
    }

    // Free a space built since, which leaves no trace of it.
    method Abandon(d: int, ghost mem0: seq<Page>, ghost role0: Roles, ghost maps0: Maps, ghost ts: set<int>)
      requires Valid() && Spaces(mem0, role0, maps0) && d !in role0 && d !in maps0 && d in maps
      requires maps == maps0[d := maps[d]]
      requires Building(role0, role, d, ts) && Kept(mem0, role0, mem, role)
      modifies this`mem, this`freelist, this`free, this`role, this`maps
      ensures Valid() && role == role0 && maps == maps0 && Kept(mem0, role0, mem, role)
    {
      ghost var mid, before, spaces := role, mem, maps;
      FreeVm(d);
      TornDown(mem0, role0, maps0, mid, role, d, ts);
      KeptMore(mem0, role0, before, mid, mem, role);
      ChangedThenGone(maps0, spaces, maps, d);
      assert maps0 - {d} == maps0;
    }

    // The entry walkpgdir() leads to is the one of the space.
    lemma {:induction false} EntryOf(d: int, v: int)
      requires Valid() && d in maps && 0 <= v < ALL_PAGES && v in maps[d]
      ensures 0 <= d < |mem| && Present(mem[d][Pdx(v)]) && 0 <= TableOf(mem, d, v) < |mem|
      ensures mem[TableOf(mem, d, v)][Ptx(v)] == maps[d][v] && Present(maps[d][v])
    {
      assert DirOk(mem, role, maps, d);
      assert MapOk(mem, maps[d], d, v);
    }

    // A page of d is copied to e.
    method CopyStep(d: int, e: int, v: int, ghost mem0: seq<Page>, ghost role0: Roles, ghost maps0: Maps,
                    ghost xs: seq<Page>, ghost fs: seq<int>, ghost ts: set<int>) returns (p: int, ok: bool)
      requires e in maps0 && d in maps0 && d != e && 0 <= v < USER_PAGES && v < |xs| == |fs| && v in maps0[d]
      requires v !in maps0[e]
      requires Spaces(mem0, role0, maps0) && Growing(mem0, role0, maps0, e, 0, v, xs, fs, -1, ts)
      requires Shows(mem0, maps0[d][v], xs[v], fs[v]) && Pdx(v) in ts
      modifies this`mem, this`freelist, this`free, this`role, this`maps
      ensures Growing(mem0, role0, maps0, e, 0, if ok then v + 1 else v, xs, fs, if ok then -1 else p, ts)
      ensures !ok ==> free == Nil && (p == -1 || Short(mem, e, ts))
    {
      EntryOf(d, v);
      assert DirOk(mem0, role0, maps0, d);
      assert VpnOk(role0, maps0[d], d, v);
      var t := WalkPgdir(d, v, false, {});
      var pte := mem[t][Ptx(v)];
      p, ok := GrowStep(e, v, mem[Ppn(pte)], Flags(pte), 0, mem0, role0, maps0, xs, fs, ts);
    }

    // Copy pages until memory runs out or all are copied. A page that could not be mapped is left over.
    method CopyPages(d: int, e: int, sz: int, ghost mem0: seq<Page>, ghost role0: Roles, ghost maps0: Maps,
                     ghost n0: int, ghost xs: seq<Page>, ghost fs: seq<int>) returns (ok: bool, p: int, ghost n: int)
      requires n0 + |role0| == top - first && 0 <= sz <= KERNBASE && e in maps0 && d in maps0 && d != e
      requires PageUp(sz) == |xs| == |fs|
      requires forall v :: 0 <= v < |xs| ==> v in maps0[d] && v !in maps0[e]
      requires Spaces(mem0, role0, maps0) && AllShow(mem0, maps0[d], 0, |xs|, xs, fs)
      requires Growing(mem0, role0, maps0, e, 0, 0, xs, fs, -1, Entries(0, |xs|))
      modifies this`mem, this`freelist, this`free, this`role, this`maps
      ensures 0 <= n <= |xs| && (ok ==> n == |xs| && p == -1)
      ensures Growing(mem0, role0, maps0, e, 0, n, xs, fs, p, Entries(0, |xs|))
      ensures ok <==> Missing(mem0, e, 0, |xs|) + |xs| <= n0
    {
      var i := 0;
      while Below(i, sz)
        invariant 0 <= i <= |xs| && Growing(mem0, role0, maps0, e, 0, i, xs, fs, -1, Entries(0, |xs|))
        decreases |xs| - i
      {
        EntryOfPage(0, i, |xs|);
        p, ok := CopyStep(d, e, i, mem0, role0, maps0, xs, fs, Entries(0, |xs|));
        if !ok {
          CannotGrow(mem0, role0, maps0, n0, e, 0, i, |xs|, xs, fs, p);
          return false, p, i;
        }
        i := i + 1;
      }
      CouldGrow(mem0, role0, maps0, n0, e, 0, |xs|, xs, fs);
      return true, -1, i;
    }

    // A page that could not be mapped is freed.
    method GiveBack(p: int, ghost mem0: seq<Page>, ghost role0: Roles, ghost maps0: Maps, ghost e: int, ghost n: int,
                    ghost xs: seq<Page>, ghost fs: seq<int>, ghost ts: set<int>)
      requires e in maps0 && Growing(mem0, role0, maps0, e, 0, n, xs, fs, p, ts)
      modifies this`mem, this`freelist, this`free, this`role
      ensures Valid() && Kept(mem0, role0, mem, role) && Populated(role0, role, e, 0, n, -1, ts)
      ensures p == -1 ==> unchanged(this)
    {
      if p != -1 { Return(p); }
    }

    // Copy the first sz bytes of d, which has been what it is since mem0, to e.
    method CopyInto(d: int, e: int, sz: int, ghost mem0: seq<Page>, ghost role0: Roles, ghost maps0: Maps)
      returns (ok: bool, ghost done: int)
      requires Valid() && d in maps && e in maps && d != e && 0 <= sz <= KERNBASE
      requires Backed(maps[d], PageUp(sz)) && Vacant(maps[e], PageUp(sz))
      requires Spaces(mem0, role0, maps0) && d in maps0 && maps0[d] == maps[d] && Kept(mem0, role0, mem, role)
      requires forall p :: p in role0 ==> p in role
      modifies this`mem, this`freelist, this`free, this`role, this`maps
      ensures Valid() && e in maps && maps == old(maps)[e := maps[e]] && Kept(old(mem), old(role), mem, role)
      ensures 0 <= done <= PageUp(sz) && Populated(old(role), role, e, 0, done, -1, Entries(0, PageUp(sz)))
      ensures ok <==> Missing(old(mem), e, 0, PageUp(sz)) + PageUp(sz) <= |Pages(old(free))|
      ensures ok ==>
                && Widened(old(maps)[e], maps[e], 0, PageUp(sz))
                && AllShow(mem, maps[e], 0, PageUp(sz), Contents(mem0, maps0[d], PageUp(sz)),
                           FlagsOf(maps0[d], PageUp(sz)))
    {
      ghost var n := PageUp(sz);
      ghost var xs, fs := Contents(mem0, maps0[d], n), FlagsOf(maps0[d], n);
      Conserved(mem, freelist, free, role, first, top);
      ContentsShown(mem0, role0, maps0, mem, role, d, n);
      NotGrownYet(e, 0, xs, fs, Entries(0, n));
      var p;
      ghost var mem1, role1, maps1 := mem, role, maps;
      ok, p, done := CopyPages(d, e, sz, mem, role, maps, |Pages(free)|, xs, fs);
      GiveBack(p, mem1, role1, maps1, e, done, xs, fs, Entries(0, n));
    }

    lemma {:induction false} CopyCost(mem0: seq<Page>, role0: Roles, maps0: Maps, n0: int, e: int, n: int)
      requires Spaces(mem0, role0, maps0) && n0 + |role0| == top - first && e !in role0 && e !in maps0
      requires Valid() && e in maps && Building(role0, role, e, KernelEntries()) && 0 <= n <= USER_PAGES
      requires |role| == |role0| + 1 + KERNEL_TABLES
      ensures Missing(mem, e, 0, n) == (n + ENTRIES - 1) / ENTRIES
      ensures |Pages(free)| == n0 - 1 - KERNEL_TABLES && |Pages(free)| + |role| == top - first
    {
      Conserved(mem, freelist, free, role, first, top);
      UserTables(mem0, role0, maps0, mem, role, maps, e, n);
    }

    // Copy them to e, which has only the kernel part so far, or give e up and leave everything as it was
    // before there was e.
    method CopyOrAbandon(d: int, e: int, sz: int, ghost mem0: seq<Page>, ghost role0: Roles, ghost maps0: Maps,
                         ghost kernel: map<int, Word>)
      returns (ok: bool)
      requires Valid() && d in maps0 && 0 <= sz <= KERNBASE && Backed(maps0[d], PageUp(sz))
      requires Spaces(mem0, role0, maps0) && Kept(mem0, role0, mem, role) && e !in role0 && e !in maps0
      requires Changed(maps0, maps, e, kernel) && forall v :: v in kernel ==> v >= USER_PAGES
      requires Building(role0, role, e, KernelEntries())
      modifies this`mem, this`freelist, this`free, this`role, this`maps
      ensures Valid() && Kept(mem0, role0, mem, role)
      ensures ok <==> Missing(old(mem), e, 0, PageUp(sz)) + PageUp(sz) <= |Pages(old(free))|
      ensures !ok ==> role == role0 && maps == maps0
      ensures ok ==>
                && e in maps && maps == maps0[e := maps[e]]
                && Building(role0, role, e, KernelEntries() + Entries(0, PageUp(sz)))
                && Widened(kernel, maps[e], 0, PageUp(sz))
                && AllShow(mem, maps[e], 0, PageUp(sz), Contents(mem0, maps0[d], PageUp(sz)),
                           FlagsOf(maps0[d], PageUp(sz)))
    {
      ghost var mem1, role1, maps1, n := mem, role, maps, PageUp(sz);
      ghost var done;
      SourceKept(maps0, maps, d, e, kernel, n);
      ok, done := CopyInto(d, e, sz, mem0, role0, maps0);
      BuiltAndPopulated(role0, role1, role, e, 0, done, KernelEntries(), Entries(0, n));
      KeptMore(mem0, role0, mem1, role1, mem, role);
      ChangedTwice(maps0, maps1, maps, e);
      if !ok {
        Abandon(e, mem0, role0, maps0, KernelEntries() + Entries(0, n));
      }
    }

    // A copy of the first sz bytes of a space: other pages with the same contents and flags. It takes
    // the kernel part, the pages and a table for every 1024 of them. -1, and everything as before,
    // exactly when that many pages are not free.
    method CopyUvm(d: int, sz: int, data: int) returns (e: int)
      requires Valid() && d in maps && DataOk(data) && 0 <= sz <= KERNBASE
      requires Backed(maps[d], PageUp(sz))
      modifies this`mem, this`freelist, this`free, this`role, this`maps
      ensures Valid() && Kept(old(mem), old(role), mem, role) && KernelOk(Kernel(data))
      ensures e != -1 <==>
                1 + KERNEL_TABLES + PageUp(sz) + (PageUp(sz) + ENTRIES - 1) / ENTRIES <= |Pages(old(free))|
      ensures e == -1 ==> role == old(role) && maps == old(maps)
      ensures e != -1 ==>
                && e !in old(maps) && e in maps && maps == old(maps)[e := maps[e]]
                && Building(old(role), role, e, KernelEntries() + Entries(0, PageUp(sz)))
                && Widened(KernelMap(Kernel(data), 4), maps[e], 0, PageUp(sz))
                && AllShow(mem, maps[e], 0, PageUp(sz), Contents(old(mem), old(maps)[d], PageUp(sz)),
                           FlagsOf(old(maps)[d], PageUp(sz)))
    {
      Conserved(mem, freelist, free, role, first, top);
      e := SetupKvm(data);
      if e == -1 { return; }
      CopyCost(old(mem), old(role), old(maps), |Pages(old(free))|, e, PageUp(sz));
      var ok := CopyOrAbandon(d, e, sz, old(mem), old(role), old(maps), KernelMap(Kernel(data), 4));
      if !ok { e := -1; }
    }
  }
}
