/**
 Cluster chains in the allocation table: freeing, allocating, and the invariant
 that every cluster in use belongs to exactly one chain.
 */
module Fat12Chain {
  import opened Bytes
  import opened Fat12Layout
  import opened Fat12Journal

  // ----- freeing -----

  /** Every link is a table index or an end mark. */
  ghost predicate LinksInside(fat: seq<nat>) {
    && 2 <= |fat| <= BAD
    && forall c :: 2 <= c < |fat| ==> fat[c] < |fat| || EOC_MIN <= fat[c]
  }

  predicate InTable(fat: seq<nat>, c: nat) {
    c < |fat| || EOC_MIN <= c
  }

  ghost function CountUsed(fat: seq<nat>): (n: nat)
  {
    if fat == [] then 0 else (if fat[|fat| - 1] == FREE then 0 else 1) + CountUsed(fat[..|fat| - 1])
  }

  lemma {:induction false} CountDrops(fat: seq<nat>, c: nat)
    requires c < |fat|
    ensures CountUsed(fat[c := FREE]) <= CountUsed(fat)
    ensures fat[c] != FREE ==> CountUsed(fat[c := FREE]) < CountUsed(fat)
  {
    var n := |fat| - 1;
    if c < n {
      CountDrops(fat[..n], c);
      assert fat[c := FREE][..n] == fat[..n][c := FREE];
    } else {
      assert fat[c := FREE][..n] == fat[..n];
    }
  }

  /** The updates made by freeing from `c` on: cut each link after reading it. */
  ghost function FreeOps(fat: seq<nat>, c: nat): (ops: seq<Op>)
    requires LinksInside(fat) && InTable(fat, c)
    ensures forall i :: 0 <= i < |ops| ==> ops[i].Link? && 2 <= ops[i].cluster < |fat| && ops[i].value == FREE
    decreases CountUsed(fat), if 2 <= c < EOC_MIN then 1 else 0
  {
    if 2 <= c < EOC_MIN then
      CountDrops(fat, c);
      [Link(c, FREE)] + FreeOps(fat[c := FREE], fat[c])
    else []
  }

  /** The table that freeing from `c` on leaves behind. */
  ghost function FreeFat(fat: seq<nat>, c: nat): (r: seq<nat>)
    requires LinksInside(fat) && InTable(fat, c)
    ensures |r| == |fat|
    decreases CountUsed(fat), if 2 <= c < EOC_MIN then 1 else 0
  {
    if 2 <= c < EOC_MIN then
      CountDrops(fat, c);
      FreeFat(fat[c := FREE], fat[c])
    else fat
  }

  lemma {:induction false} FreeOpsRun(v: Volume, g: Geometry, c: nat)
    requires Shaped(v, g) && LinksInside(v.fat) && InTable(v.fat, c)
    ensures OpsOk(FreeOps(v.fat, c), g)
    ensures Run(v, g, FreeOps(v.fat, c)) == v.(fat := FreeFat(v.fat, c))
    decreases CountUsed(v.fat), if 2 <= c < EOC_MIN then 1 else 0
  {
    if 2 <= c < EOC_MIN {
      CountDrops(v.fat, c);
      var w := Apply(v, g, Link(c, FREE));
      FreeOpsRun(w, g, v.fat[c]);
      assert FreeOps(v.fat, c)[1..] == FreeOps(w.fat, v.fat[c]);
    }
  }

  /** The cluster `n` links after `c`; a walk stays where it leaves the clusters. */
  ghost function Walk(fat: seq<nat>, c: nat, n: nat): nat
    decreases n
  {
    if n == 0 || c < 2 || |fat| <= c then c else Walk(fat, fat[c], n - 1)
  }

  ghost predicate Reaches(fat: seq<nat>, c: nat, d: nat) {
    exists n: nat :: Walk(fat, c, n) == d
  }

  /** A walk in the table with `c` cut is also a walk in the table before. */
  lemma {:induction false} WalkUncut(fat: seq<nat>, c: nat, x: nat, n: nat) returns (m: nat)
    requires 2 <= c < |fat| && 2 <= Walk(fat[c := FREE], x, n) < |fat|
    ensures Walk(fat, x, m) == Walk(fat[c := FREE], x, n)
    decreases n
  {
    m := 0;
    if n > 0 && 2 <= x < |fat| && x != c {
      m := WalkUncut(fat, c, fat[x], n - 1);
      m := m + 1;
    }
  }

  /** A walk either survives cutting `c` or passes through `c`. */
  lemma {:induction false} WalkCut(fat: seq<nat>, c: nat, x: nat, n: nat) returns (hit: bool, m: nat)
    requires 2 <= c < |fat| && Walk(fat, x, n) != c
    ensures hit ==> m < n && Walk(fat, fat[c], m) == Walk(fat, x, n)
    ensures !hit ==> Walk(fat[c := FREE], x, m) == Walk(fat, x, n)
    decreases n
  {
    if n == 0 || x < 2 || |fat| <= x {
      hit, m := false, 0;
    } else if x == c {
      hit, m := true, n - 1;
    } else {
      hit, m := WalkCut(fat, c, fat[x], n - 1);
      if !hit {
        m := m + 1;
      }
    }
  }

  lemma {:induction false} ReachesCut(fat: seq<nat>, c: nat, n: nat)
    requires 2 <= c < |fat| && Walk(fat, fat[c], n) != c
    ensures Reaches(fat[c := FREE], fat[c], Walk(fat, fat[c], n))
  {
    var hit, m := WalkCut(fat, c, fat[c], n);
    if hit {
      ReachesCut(fat, c, m);
    }
  }

  lemma ReachesStep(fat: seq<nat>, c: nat, d: nat)
    requires 2 <= c < |fat| && 2 <= d < |fat|
    ensures Reaches(fat, c, d) <==> d == c || Reaches(fat[c := FREE], fat[c], d)
  {
    if d == c {
      assert Walk(fat, c, 0) == c;
    } else if Reaches(fat, c, d) {
      var n: nat :| Walk(fat, c, n) == d;
      ReachesCut(fat, c, n - 1);
    } else if Reaches(fat[c := FREE], fat[c], d) {
      var n: nat :| Walk(fat[c := FREE], fat[c], n) == d;
      var m := WalkUncut(fat, c, fat[c], n);
      assert Walk(fat, c, m + 1) == d;
    }
  }

  /**
   Freeing frees exactly the clusters reachable from the start and leaves every
   other entry alone, whether the chain ends, runs into a free cluster or is a
   cycle.
   */
  lemma {:induction false} FreeExactlyReachable(fat: seq<nat>, c: nat, d: nat)
    requires LinksInside(fat) && InTable(fat, c) && d < |fat|
    ensures FreeFat(fat, c)[d] == if 2 <= d && Reaches(fat, c, d) then FREE else fat[d]
    decreases CountUsed(fat), if 2 <= c < EOC_MIN then 1 else 0
  {
    if 2 <= c < EOC_MIN {
      CountDrops(fat, c);
      FreeExactlyReachable(fat[c := FREE], fat[c], d);
      if 2 <= d {
        ReachesStep(fat, c, d);
      }
    }
  }

  // ----- chains -----

  /** The clusters of one file or directory, in order, ending in an end mark. */
  ghost predicate IsChain(fat: seq<nat>, s: seq<nat>) {
    && (forall i :: 0 <= i < |s| ==> 2 <= s[i] < |fat|)
    && (forall i :: 0 <= i < |s| - 1 ==> fat[s[i]] == s[i + 1])
    && (s != [] ==> EOC_MIN <= fat[s[|s| - 1]])
  }

  /** Chains have no repetition: two equal clusters would have equal tails. */
  lemma {:induction false} ChainAcyclic(fat: seq<nat>, s: seq<nat>, i: nat, j: nat)
    requires |fat| <= BAD && IsChain(fat, s) && i < j < |s|
    ensures s[i] != s[j]
    decreases |s| - j
  {
    assert fat[s[i]] == s[i + 1];
    if j + 1 < |s| {
      assert fat[s[j]] == s[j + 1];
      ChainAcyclic(fat, s, i + 1, j + 1);
    }
  }

  /** Following links from the head of a chain is the chain. */
  lemma {:induction false} FreeChain(fat: seq<nat>, s: seq<nat>, d: nat)
    requires LinksInside(fat) && IsChain(fat, s) && s != [] && d < |fat|
    ensures FreeFat(fat, s[0])[d] == if d in s then FREE else fat[d]
    decreases |s|
  {
    var f := fat[s[0] := FREE];
    CountDrops(fat, s[0]);
    if |s| > 1 {
      var t := s[1..];
      assert fat[s[0]] == t[0];
      forall i | 0 <= i < |t|
        ensures f[t[i]] == fat[t[i]]
      {
        ChainAcyclic(fat, s, 0, i + 1);
      }
      assert IsChain(f, t) by {
        forall i | 0 <= i < |t| - 1
          ensures f[t[i]] == t[i + 1]
        {
          assert fat[s[i + 1]] == s[i + 2];
        }
      }
      FreeChain(f, t, d);
      assert s == [s[0]] + t;
    }
  }

  // ----- allocating -----

  /** The lowest free cluster at or above `from`. */
  ghost function FirstFree(fat: seq<nat>, from: nat): (r: Option<nat>)
    ensures r.Some? ==>
              && from <= r.value < |fat| && fat[r.value] == FREE
              && forall c :: from <= c < r.value ==> fat[c] != FREE
    ensures r.None? ==> forall c :: from <= c < |fat| ==> fat[c] != FREE
    decreases |fat| - from
  {
    if |fat| <= from then None else if fat[from] == FREE then Some(from) else FirstFree(fat, from + 1)
  }

  // ----- ownership -----

  /** A directory slot: a unit and the number of the 32-byte entry in it. */
  datatype Ref = Ref(unit: nat, index: nat)

  /** What a cluster can belong to: a directory, or the file named by a slot. */
  datatype Owner = Dir(head: nat) | File(slot: Ref)

  ghost predicate ChainsOk(fat: seq<nat>, chains: map<Owner, seq<nat>>) {
    forall t :: t in chains ==> IsChain(fat, chains[t])
  }

  /** `owner` maps each cluster of a chain, and no other cluster, to the chain's owner. */
  ghost predicate OwnerOk(chains: map<Owner, seq<nat>>, owner: map<nat, Owner>) {
    && (forall t, i :: t in chains && 0 <= i < |chains[t]| ==>
                         chains[t][i] in owner && owner[chains[t][i]] == t)
    && (forall c :: c in owner ==> owner[c] in chains && c in chains[owner[c]])
  }

  ghost predicate UsedOk(fat: seq<nat>, owner: map<nat, Owner>) {
    forall c :: 2 <= c < |fat| ==> (fat[c] != FREE <==> c in owner)
  }

  /**
   Every chain is a well-formed chain of the table, and the clusters that are
   not free are exactly the members of the chains, each of exactly one.
   */
  ghost predicate Allocated(fat: seq<nat>, chains: map<Owner, seq<nat>>, owner: map<nat, Owner>) {
    && 2 <= |fat| <= BAD
    && ChainsOk(fat, chains)
    && OwnerOk(chains, owner)
    && UsedOk(fat, owner)
  }

  /** Chains of different owners share no cluster. */
  lemma ChainsDisjoint(fat: seq<nat>, chains: map<Owner, seq<nat>>, owner: map<nat, Owner>, t: Owner, u: Owner)
    requires Allocated(fat, chains, owner) && t in chains && u in chains && t != u
    ensures forall c :: c in chains[t] ==> c !in chains[u]
  {
    forall c | c in chains[t]
      ensures c !in chains[u]
    {
      var i :| 0 <= i < |chains[t]| && chains[t][i] == c;
      assert owner[c] == t;
    }
  }

  lemma LinksStayInside(fat: seq<nat>, chains: map<Owner, seq<nat>>, owner: map<nat, Owner>)
    requires Allocated(fat, chains, owner)
    ensures LinksInside(fat)
  {
    forall c | 2 <= c < |fat|
      ensures fat[c] < |fat| || EOC_MIN <= fat[c]
    {
      if fat[c] != FREE {
        var s := chains[owner[c]];
        var i :| 0 <= i < |s| && s[i] == c;
        if i < |s| - 1 {
          assert fat[s[i]] == s[i + 1];
        }
      }
    }
  }

  ghost function Without(owner: map<nat, Owner>, t: Owner): map<nat, Owner> {
    map c | c in owner && owner[c] != t :: owner[c]
  }

  lemma WithoutOwner(chains: map<Owner, seq<nat>>, owner: map<nat, Owner>, t: Owner)
    requires OwnerOk(chains, owner) && t in chains
    ensures OwnerOk(chains[t := []], Without(owner, t))
    ensures forall c :: c in Without(owner, t) <==> c in owner && c !in chains[t]
  {
    forall c | c in owner
      ensures owner[c] == t <==> c in chains[t]
    {
      if c in chains[t] {
        var i :| 0 <= i < |chains[t]| && chains[t][i] == c;
      }
    }
  }

  /** Chains that avoid the entries in which two tables differ are chains of both. */
  lemma ChainCongruent(fat: seq<nat>, f: seq<nat>, s: seq<nat>)
    requires |f| == |fat| && IsChain(fat, s)
    requires forall i :: 0 <= i < |s| ==> f[s[i]] == fat[s[i]]
    ensures IsChain(f, s)
  {}

  /** Freeing one owner's chain keeps the invariant for all the others. */
  lemma ReleaseKeeps(fat: seq<nat>, chains: map<Owner, seq<nat>>, owner: map<nat, Owner>, t: Owner)
    requires Allocated(fat, chains, owner) && t in chains && chains[t] != []
    ensures LinksInside(fat)
    ensures Allocated(FreeFat(fat, chains[t][0]), chains[t := []], Without(owner, t))
    ensures forall c :: 0 <= c < |fat| ==>
                          FreeFat(fat, chains[t][0])[c] == if c in chains[t] then FREE else fat[c]
  {
    hide IsChain, FreeFat, LinksInside;
    LinksStayInside(fat, chains, owner);
    WithoutOwner(chains, owner, t);
    var s := chains[t];
    FirstInside(fat, s);
    var f := FreeFat(fat, s[0]);
    FreeWhole(fat, s);
    NothingChain(f);
    OwnedInside(fat, chains, owner);
    OthersStay(fat, f, chains, owner, t);
    ReleaseUsed(fat, f, owner, s, t);
  }

  lemma FirstInside(fat: seq<nat>, s: seq<nat>)
    requires IsChain(fat, s) && s != []
    ensures InTable(fat, s[0])
  {}

  lemma NothingChain(fat: seq<nat>)
    ensures IsChain(fat, [])
  {}

  lemma FreeWhole(fat: seq<nat>, s: seq<nat>)
    requires LinksInside(fat) && IsChain(fat, s) && s != [] && InTable(fat, s[0])
    ensures forall d :: 0 <= d < |fat| ==> FreeFat(fat, s[0])[d] == if d in s then FREE else fat[d]
  {
    forall d | 0 <= d < |fat|
      ensures FreeFat(fat, s[0])[d] == if d in s then FREE else fat[d]
    {
      FreeChain(fat, s, d);
    }
  }

  lemma ReleaseUsed(fat: seq<nat>, f: seq<nat>, owner: map<nat, Owner>, s: seq<nat>, t: Owner)
    requires UsedOk(fat, owner) && |f| == |fat|
    requires forall d :: 0 <= d < |fat| ==> f[d] == if d in s then FREE else fat[d]
    requires forall c :: c in Without(owner, t) <==> c in owner && c !in s
    ensures UsedOk(f, Without(owner, t))
  {
    hide Without;
  }

  lemma OwnedInside(fat: seq<nat>, chains: map<Owner, seq<nat>>, owner: map<nat, Owner>)
    requires ChainsOk(fat, chains) && OwnerOk(chains, owner)
    ensures forall c :: c in owner ==> 2 <= c < |fat|
  {
    forall c | c in owner
      ensures 2 <= c < |fat|
    {
      assert IsChain(fat, chains[owner[c]]);
    }
  }

  /** Chains whose clusters keep their links stay chains. */
  lemma OthersStay(fat: seq<nat>, f: seq<nat>, chains: map<Owner, seq<nat>>, owner: map<nat, Owner>, t: Owner)
    requires ChainsOk(fat, chains) && OwnerOk(chains, owner) && |f| == |fat|
    requires forall c :: c in owner ==> 2 <= c < |fat|
    requires forall c :: c in owner && owner[c] != t ==> f[c] == fat[c]
    ensures forall u :: u in chains && u != t ==> IsChain(f, chains[u])
  {
    forall u | u in chains && u != t
      ensures IsChain(f, chains[u])
    {
      assert forall i :: 0 <= i < |chains[u]| ==> owner[chains[u][i]] == u;
      ChainCongruent(fat, f, chains[u]);
    }
  }

  /** Appending a free cluster to a chain and linking it makes a chain. */
  lemma ExtendChain(fat: seq<nat>, s: seq<nat>, c: nat, f: seq<nat>)
    requires |fat| <= BAD && IsChain(fat, s) && 2 <= c < |fat| && c !in s
    requires f == if s == [] then fat[c := EOC] else fat[c := EOC][s[|s| - 1] := c]
    ensures IsChain(f, s + [c])
  {
    var s', n := s + [c], |s|;
    forall i | 0 <= i < |s'| - 1
      ensures f[s'[i]] == s'[i + 1]
    {
      if i < n - 1 {
        ChainAcyclic(fat, s, i, n - 1);
        assert fat[s[i]] == s[i + 1];
      }
    }
  }

  lemma WithOwner(chains: map<Owner, seq<nat>>, owner: map<nat, Owner>, t: Owner, c: nat)
    requires OwnerOk(chains, owner) && t in chains && c !in owner
    ensures OwnerOk(chains[t := chains[t] + [c]], owner[c := t])
    ensures c !in chains[t]
  {
    var s, chains', owner' := chains[t], chains[t := chains[t] + [c]], owner[c := t];
    forall d | d in owner'
      ensures owner'[d] in chains' && d in chains'[owner'[d]]
    {
      if d == c {
        assert (s + [c])[|s|] == c;
      } else if owner[d] == t {
        var i :| 0 <= i < |s| && s[i] == d;
        assert (s + [c])[i] == d;
      }
    }
  }

  /** Giving a free cluster to the end of one owner's chain keeps the invariant. */
  lemma ExtendKeeps(fat: seq<nat>, chains: map<Owner, seq<nat>>, owner: map<nat, Owner>, t: Owner, c: nat, f: seq<nat>)
    requires Allocated(fat, chains, owner) && t in chains
    requires 2 <= c < |fat| && fat[c] == FREE
    requires var s := chains[t];
             f == if s == [] then fat[c := EOC] else fat[c := EOC][s[|s| - 1] := c]
    ensures Allocated(f, chains[t := chains[t] + [c]], owner[c := t])
  {
    hide IsChain;
    var s, n := chains[t], |chains[t]|;
    WithOwner(chains, owner, t, c);
    ExtendChain(fat, s, c, f);
    OwnedInside(fat, chains, owner);
    assert s != [] ==> s[n - 1] in owner && owner[s[n - 1]] == t;
    OthersStay(fat, f, chains, owner, t);
  }

  ghost function RetagChains(chains: map<Owner, seq<nat>>, t: Owner, u: Owner): map<Owner, seq<nat>>
    requires t in chains
  {
    (chains - {t})[u := chains[t]]
  }

  ghost function RetagOwner(owner: map<nat, Owner>, t: Owner, u: Owner): map<nat, Owner> {
    map c | c in owner :: if owner[c] == t then u else owner[c]
  }

  /** Handing a whole chain to a new owner keeps the invariant. */
  lemma RetagKeeps(fat: seq<nat>, chains: map<Owner, seq<nat>>, owner: map<nat, Owner>, t: Owner, u: Owner)
    requires Allocated(fat, chains, owner) && t in chains && u !in chains
    ensures Allocated(fat, RetagChains(chains, t, u), RetagOwner(owner, t, u))
  {}

  /** An owner without clusters can be added or taken away. */
  lemma WithoutChain(fat: seq<nat>, chains: map<Owner, seq<nat>>, owner: map<nat, Owner>, t: Owner)
    requires Allocated(fat, chains, owner) && (t in chains ==> chains[t] == [])
    ensures Allocated(fat, chains[t := []], owner) && Allocated(fat, chains - {t}, owner)
  {
    hide Allocated;
    EmptyChain(fat, chains, owner, t);
    NoChain(fat, chains, owner, t);
  }

  lemma EmptyChain(fat: seq<nat>, chains: map<Owner, seq<nat>>, owner: map<nat, Owner>, t: Owner)
    requires Allocated(fat, chains, owner) && (t in chains ==> chains[t] == [])
    ensures Allocated(fat, chains[t := []], owner)
  {
    assert forall c :: c in owner ==> owner[c] != t;
  }

  lemma NoChain(fat: seq<nat>, chains: map<Owner, seq<nat>>, owner: map<nat, Owner>, t: Owner)
    requires Allocated(fat, chains, owner) && (t in chains ==> chains[t] == [])
    ensures Allocated(fat, chains - {t}, owner)
  {
    assert forall c :: c in owner ==> owner[c] != t;
  }
}
