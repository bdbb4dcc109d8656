/** The trie is canonical: its nodes and pointers are a function of the stored prefixes. */
module TrieShape {
  import opened Basics
  import opened PrefixSets
  import opened TrieGraph
  import opened AllowedIPsTable

  /** ks are the keys of a well-linked trie that stores the prefixes cs, and every other
      key has both children. */
  ghost predicate Canonical(ks: set<Key>, cs: set<Key>) {
    && cs <= ks
    && (forall k | k in ks :: |k| > 0)
    && (forall s {:trigger HasLeast(ks, s)} | IsSlot(ks, s) :: HasLeast(ks, s))
    && (forall k, b {:trigger Occupied(ks, Sub(k, b))} | k in ks && k !in cs :: Occupied(ks, Sub(k, b)))
  }

  ghost predicate HasLeast(ks: set<Key>, s: Slot) {
    exists o :: Least(ks, Path(s), o)
  }

  ghost predicate Occupied(ks: set<Key>, s: Slot) {
    exists m | m in ks :: Extends(m, Path(s))
  }

  ghost function Under(ks: set<Key>, p: Key): set<Key> {
    set m | m in ks && p <= m
  }

  /** Two stored prefixes part right below k. */
  ghost predicate Branches(cs: set<Key>, k: Key) {
    exists q, r | q in cs && r in cs :: Extends(q, k + [false]) && Extends(r, k + [true])
  }

  lemma SoundIsCanonical(g: Graph, lists: map<Peer, seq<TrieEntry>>)
    requires Sound(g, lists)
    ensures Canonical(g.at.Keys, Contents(g).Keys)
  {
    var ks, cs := g.at.Keys, Contents(g).Keys;
    forall s | IsSlot(ks, s) ensures HasLeast(ks, s) {
      assert SlotOK(g, s);
    }
    forall k, b | k in ks && k !in cs ensures Occupied(ks, Sub(k, b)) {
      assert FullCell(g.cells[k]) && SlotOK(g, Sub(k, b));
      var n := Deref(g, Sub(k, b));
      assert Extends(n.key, Path(Sub(k, b)));
    }
  }

  /** The least key of an occupied slot. */
  lemma LeastOf(ks: set<Key>, cs: set<Key>, s: Slot) returns (c: Key)
    requires Canonical(ks, cs) && IsSlot(ks, s) && Occupied(ks, s)
    ensures Least(ks, Path(s), Some(c)) && |Path(s)| <= |c|
  {
    assert HasLeast(ks, s);
    var o :| Least(ks, Path(s), o);
    c := o.value;
  }

  /** Below every key of the trie there is a stored prefix. */
  lemma {:induction false} EntryBelow(ks: set<Key>, cs: set<Key>, k: Key, bound: nat) returns (q: Key)
    requires Canonical(ks, cs) && k in ks
    requires forall m | m in ks :: |m| <= bound
    ensures q in cs && k <= q
    decreases bound - |k|
  {
    if k in cs {
      q := k;
    } else {
      assert Occupied(ks, Sub(k, false));
      var c := LeastOf(ks, cs, Sub(k, false));
      q := EntryBelow(ks, cs, c, bound);
    }
  }

  /** A key at which two stored prefixes part is in the trie. */
  lemma {:induction false} BranchingIsNode(ks: set<Key>, cs: set<Key>, k: Key, q: Key, r: Key, s: Slot)
    requires Canonical(ks, cs) && q in cs && r in cs && k + [false] <= q && k + [true] <= r
    requires IsSlot(ks, s) && Path(s) <= k
    ensures k in ks
    decreases |k| - |Path(s)|
  {
    assert Extends(q, Path(s)) && Extends(r, Path(s));
    var c := LeastOf(ks, cs, s);
    CommonPrefix(c, k, q, r);
    if c != k {
      StepTowards(c, k);
      BranchingIsNode(ks, cs, k, q, r, Sub(c, k[|c|]));
    }
  }

  lemma CommonPrefix(c: Key, k: Key, q: Key, r: Key)
    requires c <= q && c <= r && k + [false] <= q && k + [true] <= r
    ensures c == k || c < k
  {
    assert q[|k|] == (k + [false])[|k|] && r[|k|] == (k + [true])[|k|];
    assert |c| <= |k|;
    PrefixesCompare(c, k, q);
    if |c| == |k| { Antisymmetric(c, k); }
  }

  ghost function MaxLength(ks: set<Key>): (n: nat)
    ensures forall m | m in ks :: |m| <= n
  {
    if ks == {} then 0 else
      var k :| k in ks;
      var n := MaxLength(ks - {k});
      if |k| > n then |k| else n
  }

  /** The keys of the trie are the stored prefixes and the places where two of them part. */
  lemma KeysAreClosure(ks: set<Key>, cs: set<Key>, k: Key)
    requires Canonical(ks, cs)
    ensures k in ks <==> k in cs || (|k| > 0 && Branches(cs, k))
  {
    if k in ks && k !in cs {
      assert Occupied(ks, Sub(k, false)) && Occupied(ks, Sub(k, true));
      var c0 := LeastOf(ks, cs, Sub(k, false));
      var c1 := LeastOf(ks, cs, Sub(k, true));
      var q := EntryBelow(ks, cs, c0, MaxLength(ks));
      var r := EntryBelow(ks, cs, c1, MaxLength(ks));
      assert Extends(q, k + [false]) && Extends(r, k + [true]);
    }
    if |k| > 0 && Branches(cs, k) {
      var q, r :| q in cs && r in cs && Extends(q, k + [false]) && Extends(r, k + [true]);
      BranchingIsNode(ks, cs, k, q, r, Top(k[0]));
    }
  }

  /** A trie never has more than twice as many nodes, less one, as stored prefixes. */
  lemma {:induction false} NodeBound(ks: set<Key>, cs: set<Key>, s: Slot, bound: nat)
    requires Canonical(ks, cs) && IsSlot(ks, s)
    requires forall m | m in ks :: |m| <= bound
    ensures var nodes, entries := |Under(ks, Path(s))|, |Under(cs, Path(s))|;
      if entries == 0 then nodes == 0 else nodes <= 2 * entries - 1
    decreases bound + 1 - |Path(s)|
  {
    if !Occupied(ks, s) {
      assert forall m | m in ks :: !Extends(m, Path(s));
      assert Under(ks, Path(s)) == {} && Under(cs, Path(s)) == {};
      return;
    }
    var c := LeastOf(ks, cs, s);
    NodeBound(ks, cs, Sub(c, false), bound);
    NodeBound(ks, cs, Sub(c, true), bound);
    SplitUnder(ks, ks, s, c);
    SplitUnder(ks, cs, s, c);
    if c !in cs {
      assert Occupied(ks, Sub(c, false)) && Occupied(ks, Sub(c, true));
      NonEmptyUnder(ks, cs, Sub(c, false), bound);
      NonEmptyUnder(ks, cs, Sub(c, true), bound);
    }
  }

  lemma NonEmptyUnder(ks: set<Key>, cs: set<Key>, s: Slot, bound: nat)
    requires Canonical(ks, cs) && IsSlot(ks, s) && Occupied(ks, s)
    requires forall m | m in ks :: |m| <= bound
    ensures |Under(cs, Path(s))| > 0
  {
    var c := LeastOf(ks, cs, s);
    var q := EntryBelow(ks, cs, c, bound);
    assert q in Under(cs, Path(s));
  }

  lemma UnderOrBelow(ks: set<Key>, s: Slot, c: Key, m: Key)
    requires Least(ks, Path(s), Some(c)) && m in ks
    ensures Path(s) <= m <==> m == c || Path(Sub(c, false)) <= m || Path(Sub(c, true)) <= m
  {
    if Extends(m, Path(s)) && m != c {
      assert |m| > |c| by { if |m| <= |c| { Antisymmetric(c, m); } }
      StepTowards(c, m);
      assert m[|c|] == false || m[|c|] == true;
    }
    forall b | Path(Sub(c, b)) <= m ensures Path(s) <= m {
      PrefixesCompare(Path(s), c, c);
      assert c == (c + [b])[..|c|] == m[..|c|];
      assert Path(s) == c[..|Path(s)|] == m[..|Path(s)|];
    }
  }

  lemma SidesDiffer(c: Key, m: Key)
    ensures !(Path(Sub(c, false)) <= m && Path(Sub(c, true)) <= m)
    ensures !(Path(Sub(c, false)) <= c) && !(Path(Sub(c, true)) <= c)
  {
    if Path(Sub(c, false)) <= m {
      assert m[|c|] == Path(Sub(c, false))[|c|];
    }
  }

  /** What lies under a slot is its least key and what lies under that key's children. */
  lemma SplitUnder(ks: set<Key>, xs: set<Key>, s: Slot, c: Key)
    requires Least(ks, Path(s), Some(c)) && xs <= ks
    ensures |Under(xs, Path(s))| ==
      (if c in xs then 1 else 0) + |Under(xs, Path(Sub(c, false)))| + |Under(xs, Path(Sub(c, true)))|
  {
    hide Path, Least;
    var here := if c in xs then {c} else {};
    var left, right := Under(xs, Path(Sub(c, false))), Under(xs, Path(Sub(c, true)));
    forall m ensures m in Under(xs, Path(s)) <==> m in here + left + right {
      if m in xs { UnderOrBelow(ks, s, c, m); }
    }
    forall m ensures !(m in left && m in right) && c !in left && c !in right {
      SidesDiffer(c, m);
    }
    assert Under(xs, Path(s)) == here + (left + right);
    assert left !! right && here !! (left + right);
  }

  /** Two tables that store the same prefixes for the same peers have the same nodes,
      and corresponding pointers lead to corresponding nodes. */
  lemma ShapeIsDetermined(g: Graph, lists: map<Peer, seq<TrieEntry>>, g': Graph, lists': map<Peer, seq<TrieEntry>>)
    requires Sound(g, lists) && Sound(g', lists') && Contents(g) == Contents(g')
    ensures g.at.Keys == g'.at.Keys
    ensures forall k | k in g.at :: g.cells[k].peer == g'.cells[k].peer
    ensures forall s | IsSlot(g.at.Keys, s) :: KeyOf(Deref(g, s)) == KeyOf(Deref(g', s))
  {
    var cs := Contents(g).Keys;
    SoundIsCanonical(g, lists);
    SoundIsCanonical(g', lists');
    forall k: Key ensures k in g.at <==> k in g'.at {
      KeysAreClosure(g.at.Keys, cs, k);
      KeysAreClosure(g'.at.Keys, cs, k);
    }
    forall k | k in g.at ensures g.cells[k].peer == g'.cells[k].peer {
      assert k in Contents(g) <==> k in Contents(g');
    }
    forall s | IsSlot(g.at.Keys, s) ensures KeyOf(Deref(g, s)) == KeyOf(Deref(g', s)) {
      assert SlotOK(g, s) && SlotOK(g', s);
      LeastUnique(g.at.Keys, Path(s), KeyOf(Deref(g, s)), KeyOf(Deref(g', s)));
    }
  }

  /** At most 2n - 1 nodes for n prefixes of one family, and an empty trie for none. */
  lemma TrieSize(g: Graph, lists: map<Peer, seq<TrieEntry>>, v6: bool)
    requires Sound(g, lists)
    ensures var nodes, entries := |Under(g.at.Keys, [v6])|, |Under(Contents(g).Keys, [v6])|;
      if entries == 0 then nodes == 0 && g.roots.At(v6) == null else nodes <= 2 * entries - 1
  {
    SoundIsCanonical(g, lists);
    NodeBound(g.at.Keys, Contents(g).Keys, Top(v6), MaxLength(g.at.Keys));
    assert SlotOK(g, Top(v6));
    var n := g.roots.At(v6);
    if n != null { assert n.key in Under(g.at.Keys, [v6]); }
  }
}
