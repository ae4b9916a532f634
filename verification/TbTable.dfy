/** The lookup on linked blocks, as the hash table and the jump cache hold them. */
module TbTable {
  import opened Wire
  import opened TbCache

  /** The blocks from head on, in order. */
  ghost predicate Linked(head: TB?, chain: seq<TB>)
    reads chain
  {
    && head == (if chain == [] then null else chain[0])
    && forall i :: 0 <= i < |chain| ==> chain[i].next == Successor(chain, i)
  }

  function Successor(chain: seq<TB>, i: nat): (next: TB?)
    requires i < |chain|
  {
    if i + 1 < |chain| then chain[i + 1] else null
  }

  ghost predicate Distinct(chain: seq<TB>) {
    forall i, j :: 0 <= i < j < |chain| ==> chain[i] != chain[j]
  }

  lemma {:induction false} FindIs(m: Mmu, chain: seq<TB>, k: Key, i: nat)
    requires i <= |chain| && forall j :: 0 <= j < i ==> !Matches(m, chain[j], k)
    requires i < |chain| ==> Matches(m, chain[i], k)
    ensures Find(m, chain, k) == i
  {
    if i > 0 {
      FindIs(m, chain[1..], k, i - 1);
    }
  }

  /** The search of a chain: prev is the block whose link was followed last, null for the bucket. */
  method Search(m: Mmu, head: TB?, k: Key, ghost chain: seq<TB>) returns (prev: TB?, tb: TB?)
    requires Linked(head, chain)
    ensures var i := Find(m, chain, k);
            && tb == (if i < |chain| then chain[i] else null)
            && prev == (if i == 0 then null else chain[i - 1])
  {
    ghost var i := 0;
    prev, tb := null, head;
    while tb != null && !Matches(m, tb, k)
      invariant i <= |chain|
      invariant tb == (if i < |chain| then chain[i] else null)
      invariant prev == (if i == 0 then null else chain[i - 1])
      invariant forall j :: 0 <= j < i ==> !Matches(m, chain[j], k)
      decreases |chain| - i
    {
      hide Matches;
      prev, tb := tb, tb.next;
      i := i + 1;
    }
    hide Matches;
    FindIs(m, chain, k, i);
  }

  /** Unlinks the block that prev or the bucket links to and puts it at the head. */
  method Relink(heads: array<TB?>, h: nat, prev: TB?, tb: TB, ghost chain: seq<TB>, ghost i: nat)
    requires h < heads.Length && Linked(heads[h], chain) && Distinct(chain)
    requires i < |chain| && tb == chain[i] && prev == (if i == 0 then null else chain[i - 1])
    modifies heads, chain
    ensures Linked(heads[h], ToFront(chain, i))
    ensures forall l :: 0 <= l < heads.Length && l != h ==> heads[l] == old(heads[l])
  {
    if prev == null {
      heads[h] := tb.next;
    } else {
      prev.next := tb.next;
    }
    tb.next := heads[h];
    heads[h] := tb;
    ghost var r := ToFront(chain, i);
    forall j | 0 <= j < |r| ensures r[j].next == Successor(r, j) {
      ToFrontAt(chain, i, j);
      if j + 1 < |r| {
        ToFrontAt(chain, i, j + 1);
      }
    }
  }

  /** tb_gen_code: a new block for k, linked in at the head of its chain. */
  method GenCode(m: Mmu, heads: array<TB?>, k: Key, page1: Option<nat>, ghost chain: seq<TB>) returns (tb: TB)
    requires BucketOf(m, k) < heads.Length && Linked(heads[BucketOf(m, k)], chain)
    requires page1.Some? ==> page1.value == m.page(NextPage(k.pc / PAGE))
    modifies heads
    ensures fresh(tb) && Matches(m, tb, k)
    ensures Linked(heads[BucketOf(m, k)], [tb] + chain)
    ensures forall l :: 0 <= l < heads.Length && l != BucketOf(m, k) ==> heads[l] == old(heads[l])
  {
    var h := BucketOf(m, k);
    tb := new TB(k, m.page(k.pc / PAGE), page1);
    tb.next := heads[h];
    heads[h] := tb;
    ghost var r := [tb] + chain;
    forall i | 0 <= i < |r| ensures r[i].next == Successor(r, i) {
      if i > 0 {
        assert r[i] == chain[i - 1] && Successor(r, i) == Successor(chain, i - 1);
      }
    }
  }

  /** Search, translate if need be, and move to the front. */
  method FindInChain(m: Mmu, heads: array<TB?>, k: Key, page1: Option<nat>, ghost chain: seq<TB>) returns (tb: TB)
    requires BucketOf(m, k) < heads.Length && Linked(heads[BucketOf(m, k)], chain) && Distinct(chain)
    requires page1.Some? ==> page1.value == m.page(NextPage(k.pc / PAGE))
    modifies heads, chain
    ensures Matches(m, tb, k) && (tb in chain || fresh(tb))
    ensures tb == Searched(m, chain, k, tb)[0] && Linked(heads[BucketOf(m, k)], Searched(m, chain, k, tb))
    ensures forall l :: 0 <= l < heads.Length && l != BucketOf(m, k) ==> heads[l] == old(heads[l])
  {
    hide BucketOf, NextPage, Matches;
    var h := BucketOf(m, k);
    var prev, found := Search(m, heads[h], k, chain);
    if found == null {
      tb := GenCode(m, heads, k, page1, chain);
      var link := if prev == null then heads[h] else prev.next;
      if link != null {
        assert chain == [] && [tb] + chain == [tb] == ToFront([tb], 0);
        Relink(heads, h, prev, tb, [tb], 0);
      }
    } else {
      tb := found;
      Relink(heads, h, prev, tb, chain, Find(m, chain, k));
    }
  }

  lemma LinkedHead(head: TB?, chain: seq<TB>)
    requires Linked(head, chain) && chain != []
    ensures head == chain[0]
  {
  }

  lemma MatchFields(m: Mmu, b: TB, k: Key)
    requires Matches(m, b, k)
    ensures b.key.pc == k.pc && b.key.csBase == k.csBase && b.key.flags == k.flags && b.page0 == m.page(k.pc / PAGE)
    ensures b.page1.Some? ==> b.page1.value == m.page(NextPage(k.pc / PAGE))
    ensures BucketOf(m, k) == m.hash(m.page(k.pc / PAGE) * PAGE + k.pc % PAGE)
  {
  }

  lemma TidyDistinct(m: Mmu, chain: seq<TB>, h: nat)
    requires Tidy(m, chain, h)
    ensures Distinct(chain)
  {
    hide Home;
  }

  lemma TidyApart(m: Mmu, a: seq<TB>, b: seq<TB>, h: nat, l: nat)
    requires Tidy(m, a, h) && Tidy(m, b, l) && h != l
    ensures forall x :: x in b ==> x !in a
  {
    hide Home, Apart;
  }

  lemma BucketFits(m: Mmu, k: Key)
    requires Hashes(m)
    ensures BucketOf(m, k) < m.buckets && m.slot(k.pc) < m.slots
  {
  }

  ghost predicate Covered(chains: seq<seq<TB>>, blocks: set<TB>) {
    forall h, i :: 0 <= h < |chains| && 0 <= i < |chains[h]| ==> chains[h][i] in blocks
  }

  lemma CoveredChain(chains: seq<seq<TB>>, blocks: set<TB>, h: nat)
    requires Covered(chains, blocks) && h < |chains|
    ensures forall b :: b in chains[h] ==> b in blocks
  {
  }

  lemma CoveredStep(chains: seq<seq<TB>>, blocks: set<TB>, h: nat, chain: seq<TB>, tb: TB)
    requires Covered(chains, blocks) && h < |chains| && forall b :: b in chain ==> b in chains[h] || b == tb
    ensures Covered(chains[h := chain], blocks + {tb})
  {
    var cs := chains[h := chain];
    forall l, i | 0 <= l < |cs| && 0 <= i < |cs[l]| ensures cs[l][i] in blocks + {tb} {
      assert l == h ==> cs[l][i] in chain;
    }
  }

  class Table {
    const m: Mmu
    const heads: array<TB?>
    const jump: array<TB?>
    ghost var chains: seq<seq<TB>>
    ghost var blocks: set<TB>

    ghost predicate Valid()
      reads this, heads, jump, blocks
    {
      heads != jump && AllLinked() && Inv(m, Contents())
    }

    ghost function Contents(): (view: View)
      reads this, jump
    {
      View(chains, jump[..])
    }

    /** Empty tables, as after a flush. */
    constructor (m: Mmu)
      requires Hashes(m)
      ensures Valid() && this.m == m && blocks == {} && fresh(heads) && fresh(jump)
      ensures Contents() == View(seq(m.buckets, _ => []), seq(m.slots, _ => null))
    {
      this.m := m;
      heads := new TB?[m.buckets](_ => null);
      jump := new TB?[m.slots](_ => null);
      chains := seq(m.buckets, _ => []);
      blocks := {};
      new;
      assert jump[..] == seq(m.slots, _ => null);
    }

    ghost predicate AllLinked()
      reads this, heads, blocks
    {
      heads.Length == |chains| && Covered(chains, blocks) &&
      forall h :: 0 <= h < |chains| ==> Linked(heads[h], chains[h])
    }

    /** The part of tb_find_slow that works on the chain. */
    method FindInBucket(k: Key, page1: Option<nat>) returns (tb: TB)
      requires AllLinked() && BucketOf(m, k) < |chains|
      requires forall h :: 0 <= h < |chains| ==> Tidy(m, chains[h], h)
      requires page1.Some? ==> page1.value == m.page(NextPage(k.pc / PAGE))
      modifies this, heads, blocks
      ensures AllLinked() && fresh(blocks - old(blocks)) && Matches(m, tb, k)
      ensures chains == old(chains)[BucketOf(m, k) := Searched(m, old(chains)[BucketOf(m, k)], k, tb)]
      ensures tb == chains[BucketOf(m, k)][0] == heads[BucketOf(m, k)]
      ensures tb in old(chains)[BucketOf(m, k)] || fresh(tb)
    {
      hide Matches, NextPage, Linked, Searched, Covered;
      ghost var h, chain := BucketOf(m, k), chains[BucketOf(m, k)];
      assert Tidy(m, chain, h) && Linked(heads[h], chain);
      TidyDistinct(m, chain, h);
      CoveredChain(chains, blocks, h);
      tb := FindInChain(m, heads, k, page1, chain);
      forall l | 0 <= l < |chains| && l != h ensures Linked(heads[l], chains[l]) {
        assert old(Linked(heads[l], chains[l])) && Tidy(m, chains[l], l);
        TidyApart(m, chain, chains[l], h, l);
      }
      SearchedMembers(m, chain, k, tb);
      CoveredStep(chains, blocks, h, Searched(m, chain, k, tb), tb);
      LinkedHead(heads[h], Searched(m, chain, k, tb));
      chains := chains[h := Searched(m, chain, k, tb)];
      blocks := blocks + {tb};
    }

    /** tb_find_slow. */
    method FindSlow(k: Key, page1: Option<nat>) returns (tb: TB)
      requires Valid()
      requires page1.Some? ==> page1.value == m.page(NextPage(k.pc / PAGE))
      modifies this, heads, jump, blocks
      ensures Valid() && fresh(blocks - old(blocks)) && Matches(m, tb, k)
      ensures (Contents(), tb) == Slow(m, old(Contents()), k, tb)
      ensures tb.key.pc == k.pc && tb.key.csBase == k.csBase && tb.key.flags == k.flags
      ensures tb.page0 == m.page(k.pc / PAGE)
      ensures tb.page1.Some? ==> tb.page1.value == m.page(NextPage(k.pc / PAGE))
      ensures var h := m.hash(m.page(k.pc / PAGE) * PAGE + k.pc % PAGE);
              && h < |chains| && tb in chains[h] && (tb in old(chains)[h] || fresh(tb))
              && heads[h] == tb && jump[m.slot(k.pc)] == tb
    {
      hide Matches, BucketOf, NextPage, Linked, Tidy, Searched, Covered, AllLinked;
      BucketFits(m, k);
      ghost var v := Contents();
      tb := FindInBucket(k, page1);
      MatchFields(m, tb, k);
      SlowKeepsInv(m, v, k, tb);
      jump[m.slot(k.pc)] := tb;
      assert Contents() == Slow(m, v, k, tb).0;
    }

    /** tb_find_fast. */
    method FindFast(k: Key, page1: Option<nat>) returns (tb: TB)
      requires Valid()
      requires page1.Some? ==> page1.value == m.page(NextPage(k.pc / PAGE))
      modifies this, heads, jump, blocks
      ensures Valid() && fresh(blocks - old(blocks)) && Matches(m, tb, k)
      ensures (Contents(), tb) == Fast(m, old(Contents()), k, tb)
      ensures tb.key.pc == k.pc && tb.key.csBase == k.csBase && tb.key.flags == k.flags
      ensures tb.page0 == m.page(k.pc / PAGE)
      ensures tb.page1.Some? ==> tb.page1.value == m.page(NextPage(k.pc / PAGE))
    {
      BucketFits(m, k);
      var cached := jump[m.slot(k.pc)];
      if cached == null || cached.key != k {
        tb := FindSlow(k, page1);
      } else {
        assert Cached(m, Contents(), Contents().jump[m.slot(k.pc)]);
        tb := cached;
      }
    }
  }
}
