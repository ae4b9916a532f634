/** The lookup of translated blocks (tb_find_slow, tb_find_fast): hash chains searched with
    move-to-front, and a jump cache in front of them. */
module TbCache {
  import opened Wire

  const PAGE := 4096
  const LAST_PAGE := 0xF_FFFF_FFFF_FFFF

  /** The part of the CPU state that a block was translated for. */
  datatype Key = Key(pc: nat, csBase: nat, flags: nat)

  /** A translated block; page0 and page1 are the physical pages of its code. */
  class TB {
    const key: Key
    const page0: nat
    const page1: Option<nat>
    var next: TB?

    constructor (key: Key, page0: nat, page1: Option<nat>)
      ensures this.key == key && this.page0 == page0 && this.page1 == page1 && next == null
    {
      this.key, this.page0, this.page1, next := key, page0, page1, null;
    }
  }

  /** The address translation, fixed during a run, and the two hash functions. */
  datatype Mmu = Mmu(page: nat -> nat, hash: nat -> nat, slot: nat -> nat, buckets: nat, slots: nat)

  ghost predicate Hashes(m: Mmu) {
    && (forall a :: m.hash(a) < m.buckets)
    && (forall pc :: m.slot(pc) < m.slots)
  }

  function NextPage(page: nat): (r: nat) {
    if page == LAST_PAGE then 0 else page + 1
  }

  /** The page after the one that an address is in, in 64-bit arithmetic. */
  lemma NextPageWraps(pc: nat)
    requires pc < 0x1_0000_0000_0000_0000
    ensures PAGE * NextPage(pc / PAGE) == (pc - pc % PAGE + 4096) % 0x1_0000_0000_0000_0000
  {
    var page := pc / PAGE;
    assert pc - pc % PAGE == PAGE * page && page <= LAST_PAGE;
  }

  /** The bucket of code whose first byte lies at pc in physical page page. */
  function Bucket(m: Mmu, page: nat, pc: nat): (r: nat) {
    m.hash(page * PAGE + pc % PAGE)
  }

  function Home(m: Mmu, b: TB): (r: nat) {
    Bucket(m, b.page0, b.key.pc)
  }

  function BucketOf(m: Mmu, k: Key): (r: nat) {
    Bucket(m, m.page(k.pc / PAGE), k.pc)
  }

  /** b was translated for k, from the pages that k's code is in now. */
  predicate Matches(m: Mmu, b: TB, k: Key) {
    && b.key == k && b.page0 == m.page(k.pc / PAGE)
    && (b.page1.Some? ==> b.page1.value == m.page(NextPage(k.pc / PAGE)))
  }

  lemma MatchIsHome(m: Mmu, b: TB, k: Key)
    requires Matches(m, b, k)
    ensures Home(m, b) == BucketOf(m, k)
  {
  }

  // ------------------------------------------------------------ chains

  /** The first block of the chain that matches k, or the length of the chain. */
  function Find(m: Mmu, chain: seq<TB>, k: Key): (i: nat)
    ensures i <= |chain|
    ensures i < |chain| ==> Matches(m, chain[i], k)
  {
    if chain == [] then 0
    else if Matches(m, chain[0], k) then 0
    else 1 + Find(m, chain[1..], k)
  }

  lemma {:induction false} FindFirst(m: Mmu, chain: seq<TB>, k: Key, j: nat)
    requires j < Find(m, chain, k)
    ensures !Matches(m, chain[j], k)
  {
    if j > 0 {
      FindFirst(m, chain[1..], k, j - 1);
    }
  }

  function ToFront(chain: seq<TB>, i: nat): (r: seq<TB>)
    requires i < |chain|
    ensures |r| == |chain|
  {
    [chain[i]] + chain[..i] + chain[i + 1..]
  }

  /** Where position j of the reordered chain comes from. */
  function Origin(i: nat, j: nat): (r: nat) {
    if j == 0 then i else if j <= i then j - 1 else j
  }

  lemma ToFrontAt(chain: seq<TB>, i: nat, j: nat)
    requires i < |chain| && j < |chain|
    ensures ToFront(chain, i)[j] == chain[Origin(i, j)]
  {
  }

  lemma ToFrontPermutes(chain: seq<TB>, i: nat)
    requires i < |chain|
    ensures multiset(ToFront(chain, i)) == multiset(chain)
  {
    assert chain == chain[..i] + [chain[i]] + chain[i + 1..];
  }

  /** A well-formed chain of bucket h: every block at home, none twice, no two current blocks for the
      same key. */
  ghost predicate Tidy(m: Mmu, chain: seq<TB>, h: nat) {
    && (forall i :: 0 <= i < |chain| ==> Home(m, chain[i]) == h)
    && (forall i, j :: 0 <= i < j < |chain| ==> Apart(m, chain[i], chain[j]))
  }

  ghost predicate Apart(m: Mmu, a: TB, b: TB) {
    a != b && !(a.key == b.key && Matches(m, a, a.key) && Matches(m, b, b.key))
  }

  lemma ToFrontTidy(m: Mmu, chain: seq<TB>, h: nat, i: nat)
    requires Tidy(m, chain, h) && i < |chain|
    ensures Tidy(m, ToFront(chain, i), h)
  {
    var r := ToFront(chain, i);
    hide Home, Apart;
    forall j | 0 <= j < |r| ensures Home(m, r[j]) == h {
      ToFrontAt(chain, i, j);
    }
    forall j, l | 0 <= j < l < |r| ensures Apart(m, r[j], r[l]) {
      ToFrontAt(chain, i, j);
      ToFrontAt(chain, i, l);
      var a, b := Origin(i, j), Origin(i, l);
      ApartSym(m, chain[a], chain[b]);
    }
  }

  lemma ApartSym(m: Mmu, a: TB, b: TB)
    ensures Apart(m, a, b) <==> Apart(m, b, a)
  {
  }

  /** In a tidy chain the search finds the block for k wherever it is. */
  lemma FindUnique(m: Mmu, chain: seq<TB>, h: nat, k: Key, i: nat)
    requires Tidy(m, chain, h) && i < |chain| && Matches(m, chain[i], k)
    ensures Find(m, chain, k) == i
  {
    var f := Find(m, chain, k);
    assert f < i ==> Apart(m, chain[f], chain[i]);
    if i < f {
      FindFirst(m, chain, k, i);
    }
  }

  lemma NewApart(m: Mmu, chain: seq<TB>, k: Key, g: TB, l: nat)
    requires Matches(m, g, k) && Find(m, chain, k) == |chain| && l < |chain|
    ensures Apart(m, g, chain[l])
  {
    FindFirst(m, chain, k, l);
  }

  lemma PrependTidy(m: Mmu, chain: seq<TB>, h: nat, k: Key, g: TB)
    requires Tidy(m, chain, h) && Matches(m, g, k) && h == BucketOf(m, k)
    requires Find(m, chain, k) == |chain|
    ensures Tidy(m, [g] + chain, h)
  {
    MatchIsHome(m, g, k);
    hide Home, Apart, Find, Matches, BucketOf;
    var r := [g] + chain;
    forall j | 0 < j < |r| ensures Home(m, r[j]) == h && Apart(m, r[0], r[j]) {
      assert r[j] == chain[j - 1];
      NewApart(m, chain, k, g, j - 1);
    }
    forall j, l | 0 < j < l < |r| ensures Apart(m, r[j], r[l]) {
      assert r[l] == chain[l - 1] && r[j] == chain[j - 1];
    }
  }

  // -------------------------------------------------------------- lookups

  datatype View = View(chains: seq<seq<TB>>, jump: seq<TB?>)

  ghost predicate Sized(m: Mmu, v: View) {
    Hashes(m) && |v.chains| == m.buckets && |v.jump| == m.slots
  }

  ghost predicate Inv(m: Mmu, v: View) {
    && Sized(m, v)
    && (forall h :: 0 <= h < |v.chains| ==> Tidy(m, v.chains[h], h))
    && (forall s :: 0 <= s < |v.jump| ==> Cached(m, v, v.jump[s]))
  }

  /** What a jump-cache entry may be: a current block that is in its chain. */
  ghost predicate Cached(m: Mmu, v: View, b: TB?) {
    b == null || (Matches(m, b, b.key) && Home(m, b) < |v.chains| && b in v.chains[Home(m, b)])
  }

  /** A chain after its search: the block found moves to the front, or g is put there. */
  function Searched(m: Mmu, chain: seq<TB>, k: Key, g: TB): (r: seq<TB>)
    ensures r != []
  {
    var i := Find(m, chain, k);
    if i < |chain| then ToFront(chain, i) else [g] + chain
  }

  /** tb_find_slow; g is the block that tb_gen_code makes if it is called, a block for k from the pages
      that k's code is in. */
  function Slow(m: Mmu, v: View, k: Key, g: TB): (r: (View, TB))
    requires Sized(m, v)
  {
    var h := BucketOf(m, k);
    var chain := Searched(m, v.chains[h], k, g);
    (View(v.chains[h := chain], v.jump[m.slot(k.pc) := chain[0]]), chain[0])
  }

  predicate Hit(m: Mmu, v: View, k: Key)
    requires m.slot(k.pc) < |v.jump|
  {
    var b := v.jump[m.slot(k.pc)];
    b != null && b.key == k
  }

  /** tb_find_fast. */
  function Fast(m: Mmu, v: View, k: Key, g: TB): (r: (View, TB))
    requires Sized(m, v)
  {
    if Hit(m, v, k) then (v, v.jump[m.slot(k.pc)]) else Slow(m, v, k, g)
  }

  lemma SearchedTidy(m: Mmu, chain: seq<TB>, h: nat, k: Key, g: TB)
    requires Tidy(m, chain, h) && h == BucketOf(m, k) && Matches(m, g, k)
    ensures Tidy(m, Searched(m, chain, k, g), h)
  {
    if Find(m, chain, k) < |chain| {
      ToFrontTidy(m, chain, h, Find(m, chain, k));
    } else {
      PrependTidy(m, chain, h, k, g);
    }
  }

  /** The search loses and duplicates nothing. */
  lemma SearchedContents(m: Mmu, chain: seq<TB>, k: Key, g: TB)
    ensures multiset(Searched(m, chain, k, g)) ==
            multiset(chain) + if Find(m, chain, k) < |chain| then multiset{} else multiset{g}
  {
    var i := Find(m, chain, k);
    if i < |chain| {
      ToFrontPermutes(chain, i);
      hide ToFront;
    }
  }

  lemma SearchedMembers(m: Mmu, chain: seq<TB>, k: Key, g: TB)
    ensures Matches(m, g, k) ==> Matches(m, Searched(m, chain, k, g)[0], k)
    ensures forall b :: b in chain ==> b in Searched(m, chain, k, g)
    ensures forall b :: b in Searched(m, chain, k, g) ==> b in chain || b == g
  {
    hide Matches;
    SearchedContents(m, chain, k, g);
    var r := Searched(m, chain, k, g);
    forall b | b in chain ensures b in r {
      assert b in multiset(chain) && b in multiset(r);
    }
    forall b | b in r ensures b in chain || b == g {
      assert b in multiset(r);
    }
  }

  lemma SlowKeepsInv(m: Mmu, v: View, k: Key, g: TB)
    requires Inv(m, v) && Matches(m, g, k)
    ensures Inv(m, Slow(m, v, k, g).0)
    ensures Matches(m, Slow(m, v, k, g).1, k)
  {
    var h := BucketOf(m, k);
    var chain := Searched(m, v.chains[h], k, g);
    SearchedTidy(m, v.chains[h], h, k, g);
    SearchedMembers(m, v.chains[h], k, g);
    MatchIsHome(m, chain[0], k);
    hide Tidy, Searched, Home, BucketOf, Matches;
    var v' := Slow(m, v, k, g).0;
    forall s | 0 <= s < |v'.jump| ensures Cached(m, v', v'.jump[s]) {
      if s != m.slot(k.pc) {
        assert Cached(m, v, v.jump[s]);
      }
    }
  }

  /** b is the cache's block for k. */
  ghost predicate Holds(m: Mmu, v: View, k: Key, b: TB)
    requires Sized(m, v)
  {
    Matches(m, b, k) && b in v.chains[BucketOf(m, k)]
  }

  lemma HoldsUnique(m: Mmu, v: View, k: Key, a: TB, b: TB)
    requires Inv(m, v) && Holds(m, v, k, a) && Holds(m, v, k, b)
    ensures a == b
  {
    var h := BucketOf(m, k);
    var chain := v.chains[h];
    assert Tidy(m, chain, h);
    var i, j :| 0 <= i < |chain| && chain[i] == a && 0 <= j < |chain| && chain[j] == b;
    FindUnique(m, chain, h, k, i);
    FindUnique(m, chain, h, k, j);
  }

  /** What a lookup returns: a block for the key, from the pages that its code is in now, which the cache
      then holds. */
  lemma LookupFinds(m: Mmu, v: View, k: Key, g: TB)
    requires Inv(m, v) && Matches(m, g, k)
    ensures var (v', r) := Fast(m, v, k, g); Inv(m, v') && Holds(m, v', k, r)
    ensures var r := Fast(m, v, k, g).1;
            && r.key.pc == k.pc && r.key.csBase == k.csBase && r.key.flags == k.flags
            && r.page0 == m.page(k.pc / PAGE)
            && (r.page1.Some? ==> r.page1.value == m.page(NextPage(k.pc / PAGE)))
  {
    if Hit(m, v, k) {
      var b := v.jump[m.slot(k.pc)];
      assert Cached(m, v, b);
      MatchIsHome(m, b, k);
    } else {
      SlowKeepsInv(m, v, k, g);
      assert Slow(m, v, k, g).1 in Searched(m, v.chains[BucketOf(m, k)], k, g);
    }
  }

  /** And it is the block of the key's chain that has these, if there is one. */
  lemma LookupTakes(m: Mmu, v: View, k: Key, g: TB, b: TB)
    requires Inv(m, v) && Matches(m, g, k)
    requires b in v.chains[m.hash(m.page(k.pc / PAGE) * PAGE + k.pc % PAGE)]
    requires b.key.pc == k.pc && b.key.csBase == k.csBase && b.key.flags == k.flags
    requires b.page0 == m.page(k.pc / PAGE)
    requires b.page1.Some? ==> b.page1.value == m.page(NextPage(k.pc / PAGE))
    ensures Fast(m, v, k, g).1 == b && Slow(m, v, k, g).1 == b
  {
    var chain := v.chains[BucketOf(m, k)];
    var i :| 0 <= i < |chain| && chain[i] == b;
    assert Tidy(m, chain, BucketOf(m, k)) && Matches(m, b, k);
    FindUnique(m, chain, BucketOf(m, k), k, i);
    if Hit(m, v, k) {
      HitAgrees(m, v, k, g);
    }
  }

  /** A lookup takes nothing out of a chain and puts in at most the block it made, and that only when
      the key had none. */
  lemma LookupContents(m: Mmu, v: View, k: Key, g: TB, h: nat)
    requires Inv(m, v) && Matches(m, g, k) && h < m.buckets
    ensures var (v', r) := Fast(m, v, k, g);
            && Sized(m, v')
            && (multiset(v'.chains[h]) == multiset(v.chains[h]) ||
                (multiset(v'.chains[h]) == multiset(v.chains[h]) + multiset{g} && r == g))
  {
    SearchedContents(m, v.chains[BucketOf(m, k)], k, g);
  }

  /** A jump-cache hit returns the block that the search of the chain would find. */
  lemma HitAgrees(m: Mmu, v: View, k: Key, g: TB)
    requires Inv(m, v) && Matches(m, g, k) && Hit(m, v, k)
    ensures Fast(m, v, k, g).1 == Slow(m, v, k, g).1
  {
    var b := v.jump[m.slot(k.pc)];
    assert Cached(m, v, b);
    MatchIsHome(m, b, k);
    var h := BucketOf(m, k);
    var chain := v.chains[h];
    var i :| 0 <= i < |chain| && chain[i] == b;
    assert Tidy(m, chain, h);
    FindUnique(m, chain, h, k, i);
  }

  // ----------------------------------------------------------------- runs

  ghost predicate Lookup(m: Mmu, v: View, k: Key, g: TB, v': View, r: TB) {
    Sized(m, v) && Matches(m, g, k) && (v', r) == Fast(m, v, k, g)
  }

  ghost predicate IsRun(m: Mmu, views: seq<View>, ks: seq<Key>, gs: seq<TB>, rs: seq<TB>) {
    && |views| == |ks| + 1 && |gs| == |rs| == |ks|
    && Inv(m, views[0])
    && forall i :: 0 <= i < |ks| ==> Lookup(m, views[i], ks[i], gs[i], views[i + 1], rs[i])
  }

  lemma {:induction false} RunKeepsInv(m: Mmu, views: seq<View>, ks: seq<Key>, gs: seq<TB>, rs: seq<TB>, i: nat)
    requires IsRun(m, views, ks, gs, rs) && i < |views|
    ensures Inv(m, views[i])
  {
    if i > 0 {
      RunKeepsInv(m, views, ks, gs, rs, i - 1);
      assert Lookup(m, views[i - 1], ks[i - 1], gs[i - 1], views[i], rs[i - 1]);
      LookupFinds(m, views[i - 1], ks[i - 1], gs[i - 1]);
    }
  }

  lemma LookupKeepsBlock(m: Mmu, v: View, k: Key, g: TB, v': View, r: TB, h: nat, b: TB)
    requires Inv(m, v) && Lookup(m, v, k, g, v', r) && h < m.buckets
    ensures Sized(m, v')
    ensures b in v.chains[h] ==> b in v'.chains[h]
    ensures b in v'.chains[h] ==> b in v.chains[h] || b == g == r
  {
    LookupContents(m, v, k, g, h);
    hide Inv, Lookup, Fast;
    assert b in v.chains[h] <==> b in multiset(v.chains[h]);
    assert b in v'.chains[h] <==> b in multiset(v'.chains[h]);
  }

  lemma RunAt(m: Mmu, views: seq<View>, ks: seq<Key>, gs: seq<TB>, rs: seq<TB>, i: nat)
    requires IsRun(m, views, ks, gs, rs) && i < |ks|
    ensures Inv(m, views[i]) && Lookup(m, views[i], ks[i], gs[i], views[i + 1], rs[i])
  {
    RunKeepsInv(m, views, ks, gs, rs, i);
    hide Inv, Lookup;
  }

  /** A lookup between i and j made the block and returned it. */
  ghost predicate MadeBetween(b: TB, gs: seq<TB>, rs: seq<TB>, i: nat, j: nat)
    requires j <= |gs| == |rs|
  {
    exists l :: i <= l < j && b == gs[l] == rs[l]
  }

  /** A block that is in a chain stays in that chain, and what else is in it later was made by a lookup
      in between and returned by it. */
  lemma {:induction false} RunKeepsBlocks(m: Mmu, views: seq<View>, ks: seq<Key>, gs: seq<TB>, rs: seq<TB>,
                                          i: nat, j: nat, h: nat, b: TB)
    requires IsRun(m, views, ks, gs, rs) && i <= j < |views| && h < m.buckets && Sized(m, views[i])
    ensures Sized(m, views[j])
    ensures b in views[i].chains[h] ==> b in views[j].chains[h]
    ensures b in views[j].chains[h] && b !in views[i].chains[h] ==> MadeBetween(b, gs, rs, i, j)
  {
    hide Sized, Inv, Lookup;
    if i < j {
      RunKeepsBlocks(m, views, ks, gs, rs, i, j - 1, h, b);
      RunAt(m, views, ks, gs, rs, j - 1);
      hide IsRun;
      LookupKeepsBlock(m, views[j - 1], ks[j - 1], gs[j - 1], views[j], rs[j - 1], h, b);
    }
  }

  /** Over any run of lookups, from any well-formed cache on: a key always finds the same block. */
  lemma SameKeySameBlock(m: Mmu, views: seq<View>, ks: seq<Key>, gs: seq<TB>, rs: seq<TB>, i: nat, j: nat)
    requires IsRun(m, views, ks, gs, rs) && i <= j < |ks| && ks[i] == ks[j]
    ensures rs[i] == rs[j]
  {
    RunKeepsInv(m, views, ks, gs, rs, i);
    RunKeepsInv(m, views, ks, gs, rs, j);
    assert Lookup(m, views[i], ks[i], gs[i], views[i + 1], rs[i]);
    assert Lookup(m, views[j], ks[j], gs[j], views[j + 1], rs[j]);
    LookupFinds(m, views[i], ks[i], gs[i]);
    LookupFinds(m, views[j], ks[j], gs[j]);
    RunKeepsBlocks(m, views, ks, gs, rs, i + 1, j + 1, BucketOf(m, ks[i]), rs[i]);
    HoldsUnique(m, views[j + 1], ks[i], rs[i], rs[j]);
  }
}
