/** Bit-string prefixes and the sets of them that a path-compressed trie can hold.

    A key is the family bit of a prefix (false for IPv4, true for IPv6) followed by its
    network bits, so that `k <= a` says "the prefix k contains the address a".  The places
    where a trie stores a pointer are named by bit strings too: `[f]` is the table's root
    pointer of family f and `k + [b]` is child b of the node for k.  In a well-linked trie
    the slot p holds the least stored key at or above p; nothing else is free to choose. */
module PrefixSets {
  import opened Basics

  type Key = seq<bool>

  /** `p <= m`, named so that Least is used only where a comparison is asked for. */
  ghost predicate Extends(m: Key, p: Key) {
    p <= m
  }

  /** o is the least key of ks that extends p (None when no key of ks does). */
  ghost predicate Least(ks: set<Key>, p: Key, o: Option<Key>) {
    match o
    case None => forall m {:trigger Extends(m, p)} | m in ks :: !Extends(m, p)
    case Some(c) => c in ks && p <= c && forall m {:trigger Extends(m, p)} | m in ks && Extends(m, p) :: c <= m
  }

  /** Where a trie keeps a pointer: a root pointer of the table, or child b of the node for k. */
  datatype Slot = Top(f: bool) | Sub(k: Key, b: bool)

  ghost function Path(s: Slot): Key {
    match s
    case Top(f) => [f]
    case Sub(k, b) => k + [b]
  }

  ghost function Owner(s: Slot): Key {
    match s
    case Top(_) => []
    case Sub(k, _) => k
  }

  ghost predicate IsSlot(ks: set<Key>, s: Slot) {
    s.Sub? ==> s.k in ks && |s.k| > 0
  }

  lemma PrefixesCompare(a: Key, b: Key, c: Key)
    requires a <= c && b <= c && |a| <= |b|
    ensures a <= b
  {
    assert a == c[..|a|] && b == c[..|b|];
    assert b[..|a|] == c[..|a|];
  }

  lemma Antisymmetric(a: Key, b: Key)
    requires a <= b && b <= a
    ensures a == b
  {
    assert a == b[..|a|] && b == a[..|b|];
  }

  /** The next slot below k on the way to a. */
  lemma StepTowards(k: Key, a: Key)
    requires k < a
    ensures k + [a[|k|]] <= a
  {
    assert a[..|k| + 1] == k + [a[|k|]];
  }

  lemma StepBelow(k: Key, m: Key, a: Key)
    requires k < m <= a
    ensures k + [a[|k|]] <= m
  {
    assert m[|k|] == a[|k|];
    StepTowards(k, m);
  }

  lemma LeastUnique(ks: set<Key>, p: Key, o: Option<Key>, o': Option<Key>)
    requires Least(ks, p, o) && Least(ks, p, o')
    ensures o == o'
  {
    assert o.Some? ==> Extends(o.value, p);
    assert o'.Some? ==> Extends(o'.value, p);
    if o.Some? && o'.Some? {
      Antisymmetric(o.value, o'.value);
    }
  }

  /** The search for q ends in slot s0: its occupant o is missing or does not lead to q. */
  ghost predicate Free(ks: set<Key>, s0: Slot, q: Key, o: Option<Key>) {
    && |q| > 0
    && q !in ks
    && IsSlot(ks, s0)
    && Path(s0) <= q
    && Least(ks, Path(s0), o)
    && (o.Some? ==> !(o.value <= q))
  }

  lemma SamePath(s: Slot, s': Slot)
    requires (s.Sub? ==> |s.k| > 0) && (s'.Sub? ==> |s'.k| > 0)
    requires Path(s) == Path(s')
    ensures s == s'
  {
    var p := Path(s);
    if s.Sub? && s'.Sub? {
      assert s.k == p[..|p| - 1] == s'.k;
      assert s.b == p[|p| - 1] == s'.b;
    }
    if s.Top? && s'.Top? {
      assert p[0] == s.f == s'.f;
    }
  }

  /** Other slots on the path to q point to a key strictly above s0. */
  lemma SlotsOnPath(ks: set<Key>, s0: Slot, q: Key, o: Option<Key>, s: Slot, c: Option<Key>)
    requires Free(ks, s0, q, o)
    requires IsSlot(ks, s) && s != s0 && Path(s) <= q
    requires Least(ks, Path(s), c)
    ensures c.Some? && c.value < Path(s0)
  {
    var p, p0 := Path(s), Path(s0);
    if |p0| < |p| {
      PrefixesCompare(p0, Owner(s), q);
      assert Extends(Owner(s), p0);
    } else if |p| < |p0| {
      PrefixesCompare(p, Owner(s0), q);
      assert Extends(Owner(s0), p);
    } else {
      PrefixesCompare(p, p0, q);
      Antisymmetric(p, p0);
      SamePath(s, s0);
    }
  }

  /** Adding keys that all lie between s0 and q leaves every other slot as it was. */
  lemma OtherSlotsKeep(ks: set<Key>, s0: Slot, q: Key, o: Option<Key>, added: set<Key>, s: Slot, c: Option<Key>)
    requires Free(ks, s0, q, o)
    requires forall m | m in added :: Path(s0) <= m <= q
    requires IsSlot(ks, s) && s != s0
    requires Least(ks, Path(s), c)
    ensures Least(ks + added, Path(s), c)
  {
    if m :| m in added && Path(s) <= m {
      assert Path(s) <= q;
      SlotsOnPath(ks, s0, q, o, s, c);
    }
  }

  /** The new key q lies directly in slot p0, above the old occupant d (if any). */
  lemma PlaceAbove(ks: set<Key>, s0: Slot, q: Key, o: Option<Key>)
    requires Free(ks, s0, q, o)
    requires o.Some? ==> q < o.value
    ensures Least(ks + {q}, Path(s0), Some(q))
    ensures forall b :: Least(ks + {q}, Path(Sub(q, b)), if o.Some? && o.value[|q|] == b then o else None)
  {
    var p0 := Path(s0);
    forall b ensures Least(ks + {q}, Path(Sub(q, b)), if o.Some? && o.value[|q|] == b then o else None) {
      forall m | m in ks + {q} && q + [b] <= m
        ensures o.Some? && o.value <= m && o.value[|q|] == b
      {
        assert m != q;
        assert Extends(m, p0);
        assert o.Some? && o.value <= m;
        assert m[|q|] == o.value[|q|];
        assert (q + [b])[|q|] == b;
      }
      if o.Some? && o.value[|q|] == b {
        assert o.value[..|q| + 1] == q + [b];
      }
    }
  }

  /** s is where q and d part company. */
  ghost predicate Forks(s: Key, q: Key, d: Key) {
    s < q && s < d && q[|s|] != d[|s|]
  }

  /** q and the occupant d of p0 become the two children of a new node s. */
  lemma PlaceFork(ks: set<Key>, s0: Slot, q: Key, d: Key, s: Key)
    requires Free(ks, s0, q, Some(d))
    requires Forks(s, q, d)
    ensures Path(s0) <= s && s !in ks
    ensures Least(ks + {q, s}, Path(s0), Some(s))
    ensures Least(ks + {q, s}, Path(Sub(s, q[|s|])), Some(q))
    ensures Least(ks + {q, s}, Path(Sub(s, d[|s|])), Some(d))
    ensures forall b :: Least(ks + {q, s}, Path(Sub(q, b)), None)
  {
    var p0 := Path(s0);
    assert |p0| <= |s|;
    PrefixesCompare(p0, s, q);
    assert Extends(s, p0);
    var ks' := ks + {q, s};
    assert q[..|s| + 1] == s + [q[|s|]];
    assert d[..|s| + 1] == s + [d[|s|]];
    forall m | m in ks' && p0 <= m ensures s <= m {
      if m in ks { assert Extends(m, p0); }
    }
    forall m | m in ks' && s + [q[|s|]] <= m ensures q <= m {
      assert Extends(m, p0);
      assert m[|s|] == q[|s|];
    }
    forall m | m in ks' && s + [d[|s|]] <= m ensures d <= m {
      assert Extends(m, p0);
      assert (s + [d[|s|]])[|s|] == m[|s|];
      assert m != q;
    }
    forall b ensures Least(ks', Path(Sub(q, b)), None) {
      forall m | m in ks' ensures !(q + [b] <= m) {
        if m in ks && Extends(m, p0) {
          assert d <= m && m[|s|] == d[|s|];
        }
      }
    }
  }

  /** A key is pointed to from one slot only. */
  lemma SlotUnique(ks: set<Key>, s: Slot, s': Slot, k: Key)
    requires IsSlot(ks, s) && IsSlot(ks, s')
    requires Least(ks, Path(s), Some(k)) && Least(ks, Path(s'), Some(k))
    ensures s == s'
  {
    var p, p' := Path(s), Path(s');
    if |p| < |p'| {
      PrefixesCompare(p, Owner(s'), k);
      assert Extends(Owner(s'), p);
    } else if |p'| < |p| {
      PrefixesCompare(p', Owner(s), k);
      assert Extends(Owner(s), p');
    } else {
      assert p == k[..|p|] && p' == k[..|p'|];
      SamePath(s, s');
    }
  }

  /** Removing a key with at most one child hands that child to its slot ... */
  lemma SpliceSlot(ks: set<Key>, s0: Slot, k: Key, b: bool, o: Option<Key>)
    requires Least(ks, Path(s0), Some(k))
    requires Least(ks, Path(Sub(k, b)), o) && Least(ks, Path(Sub(k, !b)), None)
    ensures Least(ks - {k}, Path(s0), o)
  {
    forall m | m in ks - {k} && Path(s0) <= m
      ensures o.Some? && o.value <= m
    {
      assert Extends(m, Path(s0)) && m != k && k <= m;
      assert |m| > |k| by { if |m| <= |k| { Antisymmetric(k, m); } }
      StepTowards(k, m);
      var x := m[|k|];
      assert Extends(m, Path(Sub(k, x)));
      assert x == b;
    }
  }

  /** ... and disturbs no other slot. */
  lemma SpliceOthers(ks: set<Key>, s0: Slot, k: Key, s: Slot, c: Option<Key>)
    requires IsSlot(ks, s0) && Least(ks, Path(s0), Some(k))
    requires IsSlot(ks, s) && s != s0 && Least(ks, Path(s), c)
    ensures Least(ks - {k}, Path(s), c)
  {
    if c == Some(k) {
      SlotUnique(ks, s0, s, k);
    }
  }
}
