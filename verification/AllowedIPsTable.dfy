/** The allowed-IPs table: two path-compressed tries changed in place, with a list of its
    nodes in every peer. */
module AllowedIPsTable {
  import opened Basics
  import opened PrefixSets
  import opened TrieGraph

  function LeadingZeros(x: seq<bool>): (n: nat)
    ensures n <= |x|
    ensures forall i | 0 <= i < n :: !x[i]
    ensures n < |x| ==> x[n]
  {
    if x == [] || x[0] then 0 else 1 + LeadingZeros(x[1..])
  }

  function Xor(a: seq<bool>, b: seq<bool>): (x: seq<bool>)
    requires |a| == |b|
    ensures |x| == |a| && forall i | 0 <= i < |a| :: x[i] <==> a[i] != b[i]
  {
    seq(|a|, i requires 0 <= i < |a| => a[i] != b[i])
  }

  /** The number of leading bits two addresses share; an IPv6 address is compared as two
      64-bit halves. */
  function CommonBits(ip1: seq<bool>, ip2: seq<bool>): (n: nat)
    requires |ip1| == |ip2| && (|ip1| == 32 || |ip1| == 128)
    ensures n <= |ip1| && ip1[..n] == ip2[..n]
    ensures n < |ip1| ==> ip1[n] != ip2[n]
  {
    if |ip1| == 32 then
      LeadingZeros(Xor(ip1, ip2))
    else
      var x := Xor(ip1[..64], ip2[..64]);
      if exists i :: 0 <= i < |x| && x[i] then
        LeadingZeros(x)
      else
        64 + LeadingZeros(Xor(ip1[64..], ip2[64..]))
  }

  /** Sharing cidr leading bits is what it means for a prefix to contain an address. */
  lemma MatchIsPrefix(bits: seq<bool>, ip: seq<bool>, cidr: nat, n: nat)
    requires |bits| == |ip| && (|ip| == 32 || |ip| == 128)
    requires cidr <= |ip| && n <= |ip|
    ensures CommonBits(bits, ip) >= cidr && cidr <= n
      <==> [|ip| == 128] + bits[..cidr] <= [|ip| == 128] + ip[..n]
  {
    var c, t := CommonBits(bits, ip), [|ip| == 128];
    var k, a := t + bits[..cidr], t + ip[..n];
    if c >= cidr && cidr <= n {
      forall i | 0 <= i < |k| ensures k[i] == a[i] {
        if i > 0 { assert k[i] == bits[i - 1] == bits[..c][i - 1] == ip[..c][i - 1] == ip[i - 1]; }
      }
    }
    if c < cidr <= n {
      assert k[c + 1] == bits[c] && a[c + 1] == ip[c];
    }
  }

  /** The walk test of nodePlacement: n's prefix contains ip/cidr. */
  predicate Covers(n: TrieEntry, ip: seq<bool>, cidr: nat)
    requires WellEncoded(n) && |n.bits| == |ip| && cidr <= |ip|
    ensures Covers(n, ip, cidr) <==> n.key <= PrefixKey(ip, cidr)
  {
    MatchIsPrefix(n.bits, ip, n.cidr, cidr);
    n.cidr <= cidr && CommonBits(n.bits, ip) >= n.cidr
  }

  /** The walk test of lookup: n's prefix contains the address ip. */
  predicate Contains(n: TrieEntry, ip: seq<bool>)
    requires WellEncoded(n) && |n.bits| == |ip|
    ensures Contains(n, ip) <==> n.key <= AddressKey(ip)
  {
    MatchIsPrefix(n.bits, ip, n.cidr, |ip|);
    assert ip[..|ip|] == ip;
    CommonBits(n.bits, ip) >= n.cidr
  }

  ghost function CellOf(n: TrieEntry): Cell
    reads n
  {
    Cell(n.peer, n.child, n.parent, n.perPeerElem)
  }

  ghost function GraphOf(roots: Pair, at: map<Key, TrieEntry>, nodes: set<TrieEntry>): Graph
    reads nodes
  {
    Graph(roots, at, map k | k in at && at[k] in nodes :: CellOf(at[k]))
  }

  lemma GraphCells(g: Graph, nodes: set<TrieEntry>, roots: Pair, at: map<Key, TrieEntry>)
    requires g == GraphOf(roots, at, nodes)
    ensures g.roots == roots && g.at == at
    ensures Catalog(at, nodes) ==> forall o | o in nodes :: o.key in g.cells && CellOf(o) == g.cells[o.key]
  {
  }

  lemma ForkedKeys(f: TrieEntry, n: TrieEntry, down: TrieEntry)
    requires Forks(f.key, n.key, down.key)
    ensures f.key < n.key && f.key < down.key
  {
  }

  /** nodes is exactly the set of registered nodes, and their fields are consistent. */
  ghost predicate Catalog(at: map<Key, TrieEntry>, nodes: set<TrieEntry>) {
    && (forall k | k in at :: at[k] in nodes && at[k].key == k)
    && (forall o | o in nodes :: o.key in at && at[o.key] == o)
    && (forall o {:trigger WellEncoded(o)} | o in nodes :: WellEncoded(o))
  }

  lemma CatalogGrows(at: map<Key, TrieEntry>, nodes: set<TrieEntry>, n: TrieEntry)
    requires Catalog(at, nodes) && n.key !in at && WellEncoded(n)
    ensures Catalog(at[n.key := n], nodes + {n})
  {
  }

  lemma Snapshot(roots: Pair, at: map<Key, TrieEntry>, nodes: set<TrieEntry>)
    requires Catalog(at, nodes)
    ensures var g := GraphOf(roots, at, nodes);
      && g.cells.Keys == at.Keys
      && forall o | o in nodes :: o.key in g.cells && CellOf(o) == g.cells[o.key]
  {
  }

  lemma CellHere(roots: Pair, at: map<Key, TrieEntry>, nodes: set<TrieEntry>, n: TrieEntry)
    requires Catalog(at, nodes) && n in nodes
    ensures Holds(GraphOf(roots, at, nodes), n)
    ensures n.key in GraphOf(roots, at, nodes).cells && GraphOf(roots, at, nodes).cells[n.key] == CellOf(n)
  {
  }

  /** The graph after one node changed. */
  lemma OneCell(g: Graph, nodes: set<TrieEntry>, n: TrieEntry, c: Cell)
    requires Catalog(g.at, nodes) && n in nodes && g.cells.Keys == g.at.Keys
    requires forall o | o in nodes && o != n :: CellOf(o) == g.cells[o.key]
    requires CellOf(n) == c
    ensures GraphOf(g.roots, g.at, nodes) == WithCell(g, n.key, c)
  {
    assert GraphOf(g.roots, g.at, nodes).cells == g.cells[n.key := c];
  }

  ghost function WithCell(g: Graph, k: Key, c: Cell): Graph {
    Graph(g.roots, g.at, g.cells[k := c])
  }

  /** The invariant of the pointer structure and of the per-peer lists. */
  ghost predicate Sound(g: Graph, lists: map<Peer, seq<TrieEntry>>) {
    Almost(g, lists, {})
  }

  /** Sound, but the nodes in except may be superfluous. */
  ghost predicate Almost(g: Graph, lists: map<Peer, seq<TrieEntry>>, except: set<Key>) {
    Shape(g) && Full(g, except) && ListsOK(g, lists, null, null)
  }

  /** The prefix of length cidr of the address ip. */
  ghost function PrefixKey(ip: seq<bool>, cidr: nat): Key
    requires cidr <= |ip|
  {
    [|ip| == 128] + ip[..cidr]
  }

  lemma MaskIdle(bits: seq<bool>, cidr: nat)
    ensures cidr <= |bits| && (forall i | cidr <= i < |bits| :: !bits[i]) ==> Mask(bits, cidr) == bits
  {
    if cidr <= |bits| {
      var m := Mask(bits, cidr);
      assert forall i | 0 <= i < cidr :: m[..cidr][i] == bits[..cidr][i];
    }
  }

  /** A prefix as netip holds it: an address with its host bits zero, and a length. */
  ghost predicate IsPrefix(p: (seq<bool>, nat)) {
    p.1 <= |p.0| && Mask(p.0, p.1) == p.0
  }

  ghost function KeyOfPrefix(p: (seq<bool>, nat)): Key
    requires IsPrefix(p)
  {
    PrefixKey(p.0, p.1)
  }

  ghost function AddressKey(ip: seq<bool>): Key {
    [|ip| == 128] + ip
  }

  /** k is the longest prefix of c that contains the address a. */
  ghost predicate LongestMatch(c: map<Key, Peer>, a: Key, k: Key) {
    k in c && k <= a && forall m | m in c && m <= a :: |m| <= |k|
  }

  /** choose: the bit of ip that selects a child of n. */
  function Choose(n: TrieEntry, ip: seq<bool>): (bit: bool)
    requires WellEncoded(n) && n.cidr < |ip|
    ensures bit == ip[n.cidr]
  {
    ip[8 * n.bitAtByte + (7 - n.bitAtShift)]
  }

  /** The slot below `parent` (or below the table) on the way to q. */
  ghost function NextSlot(parent: TrieEntry?, q: Key): Slot
    requires |q| > 0
    requires parent != null ==> |parent.key| < |q|
  {
    if parent == null then Top(q[0]) else Sub(parent.key, q[|parent.key|])
  }

  /** A search for q has reached slot s, which holds node. */
  ghost predicate OnPath(g: Graph, s: Slot, q: Key, node: TrieEntry?) {
    && Shape(g)
    && IsSlot(g.at.Keys, s)
    && Path(s) <= q
    && node == Deref(g, s)
    && SlotOK(g, s)
  }

  lemma Descend(g: Graph, s: Slot, q: Key, node: TrieEntry)
    requires OnPath(g, s, q, node) && node.key < q
    ensures OnPath(g, NextSlot(node, q), q, g.cells[node.key].child.At(q[|node.key|]))
    ensures |Path(s)| < |Path(NextSlot(node, q))|
  {
    StepTowards(node.key, q);
    assert SlotOK(g, NextSlot(node, q));
  }

  /** q is not stored, and belongs in the slot below parent. */
  ghost predicate PlacedAt(g: Graph, parent: TrieEntry?, q: Key) {
    && |q| > 0
    && (parent != null ==> parent.key < q && Holds(g, parent))
    && Accepts(g, NextSlot(parent, q), q)
  }

  lemma Arrive(g: Graph, parent: TrieEntry?, q: Key, node: TrieEntry?)
    requires |q| > 0 && (parent != null ==> parent.key < q && Holds(g, parent))
    requires OnPath(g, NextSlot(parent, q), q, node)
    requires node != null ==> !(node.key <= q)
    ensures PlacedAt(g, parent, q)
  {
    assert Extends(q, Path(NextSlot(parent, q)));
  }

  /** n can be added to g below parent. */
  ghost predicate Unlinked(g: Graph, parent: TrieEntry?, n: TrieEntry) {
    && Typed(g)
    && |n.key| > 0 && n.key !in g.at
    && (parent != null ==> Holds(g, parent) && parent.key < n.key)
  }

  /** found is the peer of the best match so far; any better one extends p. */
  ghost predicate Best(c: map<Key, Peer>, a: Key, found: Peer?, best: Key, p: Key) {
    && (found == null ==> forall m | m in c && m <= a :: p <= m)
    && (found != null ==>
      && best in c && c[best] == found && best <= a
      && forall m | m in c && m <= a && |best| < |m| :: p <= m)
  }

  /** found is what a longest-prefix match of a in c yields. */
  ghost predicate IsMatch(c: map<Key, Peer>, a: Key, found: Peer?) {
    if found == null then
      forall m | m in c :: !(m <= a)
    else
      exists k | LongestMatch(c, a, k) :: c[k] == found
  }

  lemma MatchesBelow(g: Graph, s: Slot, a: Key, node: TrieEntry, m: Key)
    requires OnPath(g, s, a, node) && m in g.at && m <= a && Path(s) <= m
    requires node.key <= a
    ensures m == node.key || node.key < m
  {
    assert Extends(m, Path(s));
    if |m| == |node.key| { Antisymmetric(m, node.key); }
  }

  /** Having looked at the node of the least key above s, only longer keys remain. */
  lemma BestStep(g: Graph, s: Slot, a: Key, node: TrieEntry, found: Peer?, best: Key)
    requires OnPath(g, s, a, node) && node.key <= a
    requires Best(Contents(g), a, found, best, Path(s))
    ensures var p := g.cells[node.key].peer;
      var found', best' := if p != null then p else found, if p != null then node.key else best;
      && (node.key == a ==> IsMatch(Contents(g), a, found'))
      && (node.key < a ==> Best(Contents(g), a, found', best', Path(NextSlot(node, a))))
  {
    var c, p := Contents(g), g.cells[node.key].peer;
    var found', best' := if p != null then p else found, if p != null then node.key else best;
    forall m | m in c && m <= a && Path(s) <= m ensures m == node.key || node.key < m {
      MatchesBelow(g, s, a, node, m);
    }
    if node.key < a {
      forall m | m in c && m <= a && node.key < m ensures Path(NextSlot(node, a)) <= m {
        StepBelow(node.key, m, a);
      }
    } else if found' != null {
      assert LongestMatch(c, a, best');
    }
  }

  lemma BestDone(g: Graph, s: Slot, a: Key, node: TrieEntry?, found: Peer?, best: Key)
    requires OnPath(g, s, a, node) && (node != null ==> !(node.key <= a))
    requires Best(Contents(g), a, found, best, Path(s))
    ensures IsMatch(Contents(g), a, found)
  {
    var c := Contents(g);
    forall m | m in c && m <= a ensures !(Path(s) <= m) {
      var below := Extends(m, Path(s));
    }
    if found != null {
      assert LongestMatch(c, a, best);
    }
  }

  /** A node whose child bit would lie past the address holds the whole address. */
  lemma WholeAddress(n: TrieEntry, ip: seq<bool>)
    requires WellEncoded(n) && |n.bits| == |ip| && n.key <= AddressKey(ip)
    ensures if n.bitAtByte == |ip| / 8 then n.key == AddressKey(ip) else n.key < AddressKey(ip)
  {
    if n.cidr == |ip| { Antisymmetric(n.key, AddressKey(ip)); }
  }

  lemma ExactOrAbove(n: TrieEntry, ip: seq<bool>, cidr: nat)
    requires WellEncoded(n) && |n.bits| == |ip| && cidr <= |ip|
    requires n.key <= PrefixKey(ip, cidr)
    ensures if n.cidr == cidr then n.key == PrefixKey(ip, cidr) else n.key < PrefixKey(ip, cidr)
  {
    if n.cidr == cidr { Antisymmetric(n.key, PrefixKey(ip, cidr)); }
  }

  /** The cells of g after slot NextSlot(parent, top.key) was set to top and the parent of
      down (if any) to dp. */
  ghost function Rewire(c: Cell, k: Key, parent: TrieEntry?, top: TrieEntry, down: TrieEntry?, dp: Parent): Cell
    requires parent != null ==> |parent.key| < |top.key|
  {
    c.(child := if parent != null && k == parent.key then c.child.With(top.key[|k|], top) else c.child,
       parent := if down != null && k == down.key then dp else c.parent)
  }

  ghost predicate Rewired(g: Graph, g': Graph, parent: TrieEntry?, top: TrieEntry, down: TrieEntry?, dp: Parent)
    requires Unlinked(g, parent, top)
  {
    && (forall k | k in g.at :: k in g'.at && g'.at[k] == g.at[k])
    && (forall k | k in g.at :: k in g'.cells && g'.cells[k] == Rewire(g.cells[k], k, parent, top, down, dp))
    && g'.roots == (if parent == null then g.roots.With(top.key[0], top) else g.roots)
  }

  /** The new top's own parent field. */
  ghost function ParentFor(parent: TrieEntry?, q: Key): Parent
    requires |q| > 0 && (parent != null ==> |parent.key| < |q|)
  {
    if parent == null then Root(q[0]) else Child(parent, q[|parent.key|])
  }

  lemma RewiredGrown(g: Graph, g': Graph, parent: TrieEntry?, top: TrieEntry, dp: Parent, added: set<Key>)
    requires Unlinked(g, parent, top) && Typed(g')
    requires Rewired(g, g', parent, top, Deref(g, NextSlot(parent, top.key)), dp)
    requires g'.at.Keys == g.at.Keys + added
    requires Deref(g, NextSlot(parent, top.key)) != null ==> Holds(g, Deref(g, NextSlot(parent, top.key)))
    ensures Grown(g, g', NextSlot(parent, top.key), added)
    ensures Deref(g', NextSlot(parent, top.key)) == top
  {
    var s0 := NextSlot(parent, top.key);
    forall s | IsSlot(g.at.Keys, s) && s != s0 ensures Deref(g', s) == Deref(g, s) {
      if s.Sub? { assert g'.cells[s.k] == Rewire(g.cells[s.k], s.k, parent, top, Deref(g, s0), dp); }
    }
  }

  /** The parent field of down and the children of n after n adopted down. */
  ghost function DownParent(n: TrieEntry, down: TrieEntry?): Parent
    requires down != null ==> n.key < down.key
  {
    if down == null then Unset else Child(n, down.key[|n.key|])
  }

  ghost function DownPair(n: TrieEntry, down: TrieEntry?): Pair
    requires down != null ==> n.key < down.key
  {
    if down == null then NoPair else NoPair.With(down.key[|n.key|], down)
  }

  /** A new node for q below parent, with the old occupant of its slot as child. */
  ghost predicate Attached(g: Graph, g': Graph, parent: TrieEntry?, n: TrieEntry, peer: Peer)
    requires Unlinked(g, parent, n)
  {
    var d := Deref(g, NextSlot(parent, n.key));
    && Typed(g')
    && g'.at == g.at[n.key := n]
    && (d != null ==> n.key < d.key)
    && Rewired(g, g', parent, n, d, DownParent(n, d))
    && g'.cells[n.key] == Cell(peer, DownPair(n, d),
                               ParentFor(parent, n.key), true)
  }

  lemma AttachedKeeps(g: Graph, g': Graph, parent: TrieEntry?, n: TrieEntry, peer: Peer, lists: map<Peer,
                      seq<TrieEntry>>)
    requires PlacedAt(g, parent, n.key) && Unlinked(g, parent, n) && Attached(g, g', parent, n, peer)
    requires Full(g, {}) && ListsOK(g, lists, n, peer)
    ensures Sound(g', lists) && Contents(g') == Contents(g)[n.key := peer]
  {
    var s0 := NextSlot(parent, n.key);
    var d := Deref(g, s0);
    assert SlotOK(g, s0);
    RewiredGrown(g, g', parent, n, DownParent(n, d), {n.key});
    assert Placed(g, g', s0, n);
    PlacedKeepsShape(g, g', s0, n);
    GrownKeepsFull(g, g', s0, {n.key});
    GrownKeepsLists(g, g', s0, {n.key}, n, peer, lists);
    GrownContents(g, g', s0, {n.key}, n.key, peer);
  }

  /** The nodes ns held the graph g; linking top below parent changed them into this. */
  ghost predicate Written(g: Graph, roots: Pair, ns: set<TrieEntry>, parent: TrieEntry?, top: TrieEntry,
                          down: TrieEntry?, dp: Parent)
    requires |top.key| > 0 && (parent != null ==> |parent.key| < |top.key|)
    reads ns
  {
    && (forall o | o in ns && o != parent && o != down :: o.key in g.cells && CellOf(o) == g.cells[o.key])
    && (parent != null && parent in ns ==>
      && parent.key in g.cells
      && CellOf(parent) == g.cells[parent.key].(child := g.cells[parent.key].child.With(top.key[|parent.key|], top)))
    && (down != null && down in ns ==> down.key in g.cells && CellOf(down) == g.cells[down.key].(parent := dp))
    && roots == if parent == null then g.roots.With(top.key[0], top) else g.roots
  }

  lemma WrittenRewired(g: Graph, g': Graph, ns: set<TrieEntry>, nodes: set<TrieEntry>,
                       parent: TrieEntry?, top: TrieEntry, down: TrieEntry?, dp: Parent)
    requires g' == GraphOf(g'.roots, g'.at, nodes)
    requires Unlinked(g, parent, top) && Written(g, g'.roots, ns, parent, top, down, dp)
    requires Catalog(g.at, ns) && ns <= nodes
    requires (parent != null ==> parent in ns && parent != down) && (down != null ==> down in ns)
    requires forall k | k in g.at :: k in g'.at && g'.at[k] == g.at[k]
    ensures Rewired(g, g', parent, top, down, dp)
  {
  }

  /** The new node n of peer is in peer's list and about to be linked into slot
      NextSlot(parent, n.key) of g, whose occupant is down. */
  ghost predicate Ready(g: Graph, ns: set<TrieEntry>, parent: TrieEntry?, n: TrieEntry, down: TrieEntry?,
                        peer: Peer, lists: map<Peer, seq<TrieEntry>>)
  {
    && PlacedAt(g, parent, n.key) && Unlinked(g, parent, n)
    && Full(g, {}) && ListsOK(g, lists, n, peer)
    && Catalog(g.at, ns) && WellEncoded(n)
    && down == Deref(g, NextSlot(parent, n.key))
  }

  lemma ReadyFacts(g: Graph, ns: set<TrieEntry>, parent: TrieEntry?, n: TrieEntry, down: TrieEntry?,
                   peer: Peer, lists: map<Peer, seq<TrieEntry>>)
    requires Ready(g, ns, parent, n, down, peer, lists)
    ensures n !in ns && |n.key| > 0 && WellEncoded(n)
    ensures parent != null ==> parent in ns && parent.key < n.key
    ensures down != null ==> down in ns
    ensures Catalog(g.at, ns) && Catalog(g.at[n.key := n], ns + {n})
  {
    assert SlotOK(g, NextSlot(parent, n.key));
    CatalogGrows(g.at, ns, n);
  }

  /** After place: the new graph is sound. */
  lemma AttachDone(g: Graph, roots: Pair, ns: set<TrieEntry>, parent: TrieEntry?, n: TrieEntry, down: TrieEntry?,
                   peer: Peer, lists: map<Peer, seq<TrieEntry>>)
    requires Ready(g, ns, parent, n, down, peer, lists) && (down != null ==> n.key < down.key)
    requires Written(g, roots, ns, parent, n, down, DownParent(n, down))
    requires CellOf(n) == Cell(peer, DownPair(n, down), ParentFor(parent, n.key), true)
    ensures var g' := GraphOf(roots, g.at[n.key := n], ns + {n});
      Sound(g', lists) && Contents(g') == Contents(g)[n.key := peer]
  {
    var g' := GraphOf(roots, g.at[n.key := n], ns + {n});
    ReadyFacts(g, ns, parent, n, down, peer, lists);
    WrittenRewired(g, g', ns, ns + {n}, parent, n, down, DownParent(n, down));
    assert g'.cells.Keys == g'.at.Keys;
    AttachedKeeps(g, g', parent, n, peer, lists);
  }

  /** f is the new fork node, n and down part company at f.key. */
  ghost predicate Split(g: Graph, g': Graph, parent: TrieEntry?, n: TrieEntry, f: TrieEntry, down: TrieEntry,
                        peer: Peer)
    requires Unlinked(g, parent, f)
  {
    && Forks(f.key, n.key, down.key)
    && Typed(g')
    && g'.at == g.at[n.key := n][f.key := f]
    && Rewired(g, g', parent, f, down, Child(f, down.key[|f.key|]))
    && g'.cells[n.key] == Cell(peer, NoPair, Child(f, n.key[|f.key|]), true)
    && g'.cells[f.key] == Cell(null, NoPair.With(down.key[|f.key|], down).With(n.key[|f.key|], n),
                               ParentFor(parent, f.key), false)
  }

  lemma SplitReady(g: Graph, ns: set<TrieEntry>, parent: TrieEntry?, n: TrieEntry, f: TrieEntry, down: TrieEntry,
                   peer: Peer, lists: map<Peer, seq<TrieEntry>>)
    requires Ready(g, ns, parent, n, down, peer, lists) && Forks(f.key, n.key, down.key) && WellEncoded(f)
    ensures Unlinked(g, parent, f) && NextSlot(parent, f.key) == NextSlot(parent, n.key)
    ensures n !in ns && f !in ns && down in ns && WellEncoded(n) && n.key !in g.at
    ensures parent != null ==> parent in ns
    ensures Catalog(g.at, ns) && Catalog(g.at[n.key := n][f.key := f], ns + {n} + {f})
  {
    var s0 := NextSlot(parent, n.key);
    ReadyFacts(g, ns, parent, n, down, peer, lists);
    PlaceFork(g.at.Keys, s0, n.key, down.key, f.key);
    assert |Path(s0)| <= |f.key|;
    assert parent == null ==> f.key[0] == n.key[0];
    CatalogGrows(g.at[n.key := n], ns + {n}, f);
  }

  lemma SplitForked(g: Graph, g': Graph, parent: TrieEntry?, n: TrieEntry, f: TrieEntry, down: TrieEntry, peer: Peer)
    requires PlacedAt(g, parent, n.key) && down == Deref(g, NextSlot(parent, n.key)) && Unlinked(g, parent, f)
    requires NextSlot(parent, f.key) == NextSlot(parent, n.key)
    requires Split(g, g', parent, n, f, down, peer)
    ensures Grown(g, g', NextSlot(parent, n.key), {n.key, f.key})
    ensures Forked(g, g', NextSlot(parent, n.key), n, f, down)
  {
    assert SlotOK(g, NextSlot(parent, n.key));
    RewiredGrown(g, g', parent, f, Child(f, down.key[|f.key|]), {n.key, f.key});
  }

  lemma SplitSettles(g: Graph, g': Graph, ns: set<TrieEntry>, parent: TrieEntry?, n: TrieEntry, f: TrieEntry,
                     down: TrieEntry, peer: Peer, lists: map<Peer, seq<TrieEntry>>)
    requires Ready(g, ns, parent, n, down, peer, lists) && Unlinked(g, parent, f)
    requires Split(g, g', parent, n, f, down, peer)
    requires Grown(g, g', NextSlot(parent, n.key), {n.key, f.key}) && Deref(g', NextSlot(parent, n.key)) == f
    ensures Full(g', {}) && ListsOK(g', lists, null, null)
    ensures Contents(g') == Contents(g)[n.key := peer]
  {
    hide ListsOK, Full, Contents, Rewired, WellEncoded, Catalog, Grown, PlacedAt;
    var s0, added := NextSlot(parent, n.key), {n.key, f.key};
    GrownKeepsFull(g, g', s0, added);
    GrownKeepsLists(g, g', s0, added, n, peer, lists);
    GrownContents(g, g', s0, added, n.key, peer);
  }

  lemma SplitKeeps(g: Graph, g': Graph, ns: set<TrieEntry>, parent: TrieEntry?, n: TrieEntry, f: TrieEntry,
                   down: TrieEntry, peer: Peer, lists: map<Peer, seq<TrieEntry>>)
    requires Ready(g, ns, parent, n, down, peer, lists) && Unlinked(g, parent, f)
    requires NextSlot(parent, f.key) == NextSlot(parent, n.key)
    requires Split(g, g', parent, n, f, down, peer)
    ensures Sound(g', lists) && Contents(g') == Contents(g)[n.key := peer]
  {
    hide Grown, Split, ListsOK, Shape;
    SplitForked(g, g', parent, n, f, down, peer);
    ForkedKeepsShape(g, g', NextSlot(parent, n.key), n, f, down);
    SplitSettles(g, g', ns, parent, n, f, down, peer, lists);
  }

  lemma IsSplit(g: Graph, g': Graph, nodes: set<TrieEntry>, parent: TrieEntry?, n: TrieEntry, f: TrieEntry,
                down: TrieEntry, peer: Peer)
    requires Unlinked(g, parent, f) && Forks(f.key, n.key, down.key) && n in nodes && f in nodes
    requires g'.at == g.at[n.key := n][f.key := f] && g' == GraphOf(g'.roots, g'.at, nodes) && Catalog(g'.at, nodes)
    requires Rewired(g, g', parent, f, down, Child(f, down.key[|f.key|]))
    requires CellOf(n) == Cell(peer, NoPair, Child(f, n.key[|f.key|]), true)
    requires CellOf(f) == Cell(null, NoPair.With(down.key[|f.key|], down).With(n.key[|f.key|], n),
                               ParentFor(parent, f.key), false)
    ensures Split(g, g', parent, n, f, down, peer)
  {
    hide Rewired;
    assert g'.cells.Keys == g'.at.Keys;
  }

  lemma SplitDone(g: Graph, roots: Pair, ns: set<TrieEntry>, parent: TrieEntry?, n: TrieEntry, f: TrieEntry,
                  down: TrieEntry, peer: Peer, lists: map<Peer, seq<TrieEntry>>)
    requires Ready(g, ns, parent, n, down, peer, lists) && Forks(f.key, n.key, down.key) && WellEncoded(f)
    requires Unlinked(g, parent, f) && Written(g, roots, ns, parent, f, down, Child(f, down.key[|f.key|]))
    requires CellOf(n) == Cell(peer, NoPair, Child(f, n.key[|f.key|]), true)
    requires CellOf(f) == Cell(null, NoPair.With(down.key[|f.key|], down).With(n.key[|f.key|], n),
                               ParentFor(parent, f.key), false)
    ensures var g' := GraphOf(roots, g.at[n.key := n][f.key := f], ns + {n} + {f});
      Sound(g', lists) && Contents(g') == Contents(g)[n.key := peer]
  {
    hide Ready, Sound, Contents, Rewired, Catalog, Written, WellEncoded, Split;
    var g' := GraphOf(roots, g.at[n.key := n][f.key := f], ns + {n} + {f});
    SplitReady(g, ns, parent, n, f, down, peer, lists);
    WrittenRewired(g, g', ns, ns + {n} + {f}, parent, f, down, Child(f, down.key[|f.key|]));
    IsSplit(g, g', ns + {n} + {f}, parent, n, f, down, peer);
    SplitKeeps(g, g', ns, parent, n, f, down, peer, lists);
  }

  /** How many of the first c bits two addresses share. */
  function CommonUpTo(a: seq<bool>, b: seq<bool>, c: nat): nat
    requires |a| == |b| && (|a| == 32 || |a| == 128)
  {
    if CommonBits(a, b) < c then CommonBits(a, b) else c
  }

  /** insert masks the caller's address before it compares it with the occupant of the
      slot; that comparison only looks at bits the mask keeps. */
  lemma MaskIsHarmless(d: seq<bool>, ip: seq<bool>, c: nat)
    requires |d| == |ip| && (|ip| == 32 || |ip| == 128) && c <= |ip|
    ensures CommonUpTo(d, Mask(ip, c), c) == CommonUpTo(d, ip, c)
  {
    var m := Mask(ip, c);
    assert forall i | 0 <= i < c :: m[i] == ip[i] by {
      assert forall i | 0 <= i < c :: m[..c][i] == ip[..c][i];
    }
    var x, y := CommonBits(d, m), CommonBits(d, ip);
    assert forall i | 0 <= i < x :: d[..x][i] == m[..x][i];
    assert forall i | 0 <= i < y :: d[..y][i] == ip[..y][i];
  }

  /** Where the new node n and the occupant down of its slot part: n lies above down if
      they share n's whole prefix, and otherwise a fork goes at the first differing bit. */
  lemma Parting(n: TrieEntry, down: TrieEntry)
    requires WellEncoded(n) && WellEncoded(down) && |n.bits| == |down.bits| && !(down.key <= n.key)
    ensures var c := CommonUpTo(down.bits, n.bits, n.cidr);
      if c == n.cidr then n.key < down.key else Forks(PrefixKey(n.bits, c), n.key, down.key)
  {
    var x := CommonBits(down.bits, n.bits);
    assert down.bits[..x] == n.bits[..x];
    MatchIsPrefix(down.bits, n.bits, down.cidr, n.cidr);
    if x >= n.cidr {
      assert n.key == down.key[..|n.key|];
    } else {
      var f := PrefixKey(n.bits, x);
      assert f == n.key[..|f|] && f == down.key[..|f|];
    }
  }

  class AllowedIPs {
    var IPv4: TrieEntry?
    var IPv6: TrieEntry?
    var trieEntries: map<Peer, seq<TrieEntry>> // each peer's list of its nodes
    ghost var at: map<Key, TrieEntry>          // the nodes of both tries
    ghost var nodes: set<TrieEntry>            // the same nodes, as a set

    ghost function G(): Graph
      reads this, nodes
    {
      GraphOf(Pair(IPv4, IPv6), at, nodes)
    }

    ghost predicate Valid()
      reads this, nodes
    {
      Catalog(at, nodes) && Sound(G(), trieEntries)
    }

    /** The table as a plain map from prefixes to peers. */
    ghost function Routes(): map<Key, Peer>
      reads this, nodes
    {
      Contents(G())
    }

    constructor ()
      ensures Valid() && Routes() == map[] && trieEntries == map[] && nodes == {}
    {
      IPv4, IPv6 := null, null;
      at, nodes, trieEntries := map[], {}, map[];
      new;
      assert forall s | IsSlot(G().at.Keys, s) :: SlotOK(G(), s);
    }

    /** One step of a walk towards q: to the child of node on ip's side. */
    lemma StepDown(node: TrieEntry, ip: seq<bool>, s: Slot, q: Key)
      requires Catalog(at, nodes) && OnPath(G(), s, q, node)
      requires WellEncoded(node) && |node.bits| == |ip|
      requires node.key < q <= AddressKey(ip)
      ensures node.cidr < |ip|
      ensures var next := node.child.At(Choose(node, ip));
        && OnPath(G(), NextSlot(node, q), q, next)
        && |Path(s)| < |Path(NextSlot(node, q))|
        && (next != null ==> WellEncoded(next) && |next.bits| == |ip|)
    {
      Descend(G(), s, q, node);
      assert q[|node.key|] == AddressKey(ip)[|node.key|];
      var next := node.child.At(Choose(node, ip));
      if next != null {
        assert WellEncoded(next);
        assert next.key[0] == q[0];
      }
    }

    lemma WalkStart(ip: seq<bool>, top: TrieEntry?)
      requires Catalog(at, nodes) && Shape(G())
      requires (|ip| == 32 && top == IPv4) || (|ip| == 128 && top == IPv6)
      ensures SlotOK(G(), Top(|ip| == 128))
      ensures top != null ==> WellEncoded(top) && |top.bits| == |ip|
    {
      assert SlotOK(G(), Top(|ip| == 128));
      if top != null {
        assert WellEncoded(top);
        assert top.key[0] == Path(Top(|ip| == 128))[0];
      }
    }

    /** nodePlacement has walked below parent and looks at node. */
    ghost predicate Seeking(ip: seq<bool>, q: Key, parent: TrieEntry?, node: TrieEntry?)
      reads this, nodes
    {
      && |q| > 0 && q <= AddressKey(ip)
      && (parent != null ==> Holds(G(), parent) && parent.key < q)
      && OnPath(G(), NextSlot(parent, q), q, node)
      && (node != null ==> WellEncoded(node) && |node.bits| == |ip|)
    }

    lemma SeekStep(ip: seq<bool>, q: Key, parent: TrieEntry?, node: TrieEntry)
      requires Catalog(at, nodes) && Seeking(ip, q, parent, node) && node.key < q
      ensures node.cidr < |ip|
      ensures Seeking(ip, q, node, node.child.At(Choose(node, ip)))
      ensures |Path(NextSlot(parent, q))| < |Path(NextSlot(node, q))|
    {
      StepDown(node, ip, NextSlot(parent, q), q);
    }

    method NodePlacement(top: TrieEntry?, ip: seq<bool>, cidr: nat) returns (parent: TrieEntry?, exact: bool)
      requires Valid() && cidr <= |ip|
      requires (|ip| == 32 && top == IPv4) || (|ip| == 128 && top == IPv6)
      ensures parent != null ==> parent in nodes && Holds(G(), parent)
      ensures exact ==> parent != null && parent.key == PrefixKey(ip, cidr)
      ensures !exact ==> PlacedAt(G(), parent, PrefixKey(ip, cidr))
    {
      ghost var q := PrefixKey(ip, cidr);
      var node := top;
      parent, exact := null, false;
      WalkStart(ip, top);
      while node != null && Covers(node, ip, cidr)
        invariant Seeking(ip, q, parent, node)
        decreases |q| - |Path(NextSlot(parent, q))|
      {
        ExactOrAbove(node, ip, cidr);
        if node.cidr == cidr {
          return node, true;
        }
        SeekStep(ip, q, parent, node);
        parent := node;
        node := node.child.At(Choose(node, ip));
      }
      Arrive(G(), parent, q, node);
    }

    /** lookup has reached slot s with the best match so far. */
    ghost predicate Looking(ip: seq<bool>, s: Slot, node: TrieEntry?, found: Peer?, best: Key)
      reads this, nodes
    {
      var a := AddressKey(ip);
      && OnPath(G(), s, a, node)
      && (node != null ==> WellEncoded(node) && |node.bits| == |ip|)
      && Best(Routes(), a, found, best, Path(s))
    }

    lemma LookStart(ip: seq<bool>, top: TrieEntry?)
      requires Catalog(at, nodes) && Shape(G())
      requires (|ip| == 32 && top == IPv4) || (|ip| == 128 && top == IPv6)
      ensures Looking(ip, Top(|ip| == 128), top, null, [])
    {
      WalkStart(ip, top);
    }

    lemma LookStep(ip: seq<bool>, s: Slot, node: TrieEntry, found: Peer?, best: Key)
      requires Catalog(at, nodes) && Looking(ip, s, node, found, best) && Contains(node, ip)
      ensures var a := AddressKey(ip);
        var found' := if node.peer != null then node.peer else found;
        if node.bitAtByte == |ip| / 8 then
          IsMatch(Routes(), a, found')
        else
          && node.cidr < |ip|
          && |node.key| < |a|
          && |Path(s)| < |Path(NextSlot(node, a))|
          && Looking(ip, NextSlot(node, a), node.child.At(Choose(node, ip)), found',
                     if node.peer != null then node.key else best)
    {
      var a := AddressKey(ip);
      BestStep(G(), s, a, node, found, best);
      WholeAddress(node, ip);
      if node.bitAtByte != |ip| / 8 {
        StepDown(node, ip, s, a);
      }
    }

    /** The peer of the longest stored prefix that contains ip. */
    method LookupFrom(top: TrieEntry?, ip: seq<bool>) returns (found: Peer?)
      requires Catalog(at, nodes) && Shape(G())
      requires (|ip| == 32 && top == IPv4) || (|ip| == 128 && top == IPv6)
      ensures IsMatch(Routes(), AddressKey(ip), found)
    {
      var node := top;
      found := null;
      ghost var s, best := Top(|ip| == 128), [];
      LookStart(ip, top);
      while node != null && Contains(node, ip)
        invariant Looking(ip, s, node, found, best)
        decreases |ip| + 1 - |Path(s)|
      {
        LookStep(ip, s, node, found, best);
        if node.peer != null {
          found, best := node.peer, node.key;
        }
        if node.bitAtByte == |ip| / 8 {
          return;
        }
        s := NextSlot(node, AddressKey(ip));
        node := node.child.At(Choose(node, ip));
      }
      BestDone(G(), s, AddressKey(ip), node, found, best);
    }

    /** Store n in the slot below parent (the family's root pointer if parent is nil). */
    method Seat(parent: TrieEntry?, n: TrieEntry)
      requires WellEncoded(n)
      requires parent != null ==> parent != n && WellEncoded(parent) && parent.key < n.key
      modifies this`IPv4, this`IPv6, n, parent
      ensures CellOf(n) == old(CellOf(n)).(parent := ParentFor(parent, n.key))
      ensures Pair(IPv4, IPv6) ==
        if parent == null then old(Pair(IPv4, IPv6)).With(n.key[0], n) else old(Pair(IPv4, IPv6))
      ensures parent != null ==>
        CellOf(parent) == old(CellOf(parent)).(child := old(parent.child).With(n.key[|parent.key|], n))
    {
      if parent == null {
        n.parent := Root(|n.bits| == 128);
        if |n.bits| == 128 { IPv6 := n; } else { IPv4 := n; }
      } else {
        assert n.key[0] == parent.key[0];
        n.parent := Child(parent, Choose(parent, n.bits));
        parent.child := parent.child.With(Choose(parent, n.bits), n);
      }
    }

    /** n, whose only child is the old occupant down (if any), goes above down. */
    method Adopt(n: TrieEntry, down: TrieEntry)
      requires WellEncoded(n) && WellEncoded(down) && n.key < down.key
      modifies n, down
      ensures CellOf(n) == old(CellOf(n)).(child := old(n.child).With(down.key[|n.key|], down))
      ensures CellOf(down) == old(CellOf(down)).(parent := Child(n, down.key[|n.key|]))
    {
      assert n.key[0] == down.key[0];
      down.parent := Child(n, Choose(n, down.bits));
      n.child := n.child.With(Choose(n, down.bits), down);
    }

    /** Link n below parent, with the old occupant down (if any) as its child. */
    method Place(ghost g: Graph, ghost ns: set<TrieEntry>, parent: TrieEntry?, n: TrieEntry, down: TrieEntry?)
      requires Pair(IPv4, IPv6) == g.roots
      requires forall o | o in ns :: o.key in g.cells && CellOf(o) == g.cells[o.key]
      requires Catalog(g.at, ns)
      requires WellEncoded(n) && n.child == NoPair && n !in ns
      requires parent != null ==> parent in ns && parent.key < n.key
      requires down != null ==> down in ns && n.key < down.key
      modifies this`IPv4, this`IPv6, n, parent, down
      ensures Written(g, Pair(IPv4, IPv6), ns, parent, n, down, DownParent(n, down))
      ensures CellOf(n) == old(CellOf(n)).(parent := ParentFor(parent, n.key), child := DownPair(n, down))
    {
      assert parent != null ==> WellEncoded(parent);
      assert down != null && parent != null ==> parent != down;
      if down != null {
        assert WellEncoded(down);
        Adopt(n, down);
      }
      Seat(parent, n);
    }

    /** Put the pending node n below parent: into an empty slot, or above its occupant. */
    method Attach(parent: TrieEntry?, n: TrieEntry, down: TrieEntry?, peer: Peer)
      requires Ready(G(), nodes, parent, n, down, peer, trieEntries)
      requires CellOf(n) == Cell(peer, NoPair, Unset, true) && (down != null ==> n.key < down.key)
      modifies this`IPv4, this`IPv6, this`at, this`nodes, n, parent, down
      ensures Valid() && Routes() == old(Routes())[n.key := peer] && nodes == old(nodes) + {n}
    {
      hide Ready, Sound, Written, Catalog, Contents, WellEncoded, GraphOf, Unlinked;
      ghost var g, ns := G(), nodes;
      GraphCells(g, ns, Pair(IPv4, IPv6), at);
      ReadyFacts(g, ns, parent, n, down, peer, trieEntries);
      at, nodes := g.at[n.key := n], ns + {n};
      Place(g, ns, parent, n, down);
      AttachDone(g, Pair(IPv4, IPv6), ns, parent, n, down, peer, trieEntries);
    }

    /** Link the fork node f below parent, with the new node n and the old occupant down
        as its children. */
    method LinkFork(ghost g: Graph, ghost ns: set<TrieEntry>, parent: TrieEntry?, n: TrieEntry, f: TrieEntry,
                    down: TrieEntry)
      requires Pair(IPv4, IPv6) == g.roots
      requires forall o | o in ns :: o.key in g.cells && CellOf(o) == g.cells[o.key]
      requires Catalog(g.at, ns)
      requires WellEncoded(n) && n !in ns && WellEncoded(f) && f !in ns && f.child == NoPair
      requires parent != null ==> parent in ns && parent.key < f.key
      requires down in ns && Forks(f.key, n.key, down.key)
      modifies this`IPv4, this`IPv6, n, f, parent, down
      ensures Written(g, Pair(IPv4, IPv6), ns, parent, f, down, Child(f, down.key[|f.key|]))
      ensures CellOf(n) == old(CellOf(n)).(parent := Child(f, n.key[|f.key|]))
      ensures CellOf(f) == old(CellOf(f)).(parent := ParentFor(parent, f.key),
                                          child := NoPair.With(down.key[|f.key|], down).With(n.key[|f.key|], n))
    {
      hide Forks, Catalog, WellEncoded;
      LinkApart(g, ns, parent, n, f, down);
      Adopt(f, down);
      Adopt(f, n);
      Seat(parent, f);
    }

    lemma LinkApart(g: Graph, ns: set<TrieEntry>, parent: TrieEntry?, n: TrieEntry, f: TrieEntry, down: TrieEntry)
      requires Catalog(g.at, ns) && n !in ns && f !in ns && down in ns && Forks(f.key, n.key, down.key)
      requires parent != null ==> parent in ns && parent.key < f.key
      ensures parent != null ==> WellEncoded(parent) && parent != down && parent != n && parent != f
      ensures WellEncoded(down) && f != n && f != down && n != down && f.key < n.key && f.key < down.key
      ensures n.key[|f.key|] != down.key[|f.key|]
    {
    }

    method SplitSlot(parent: TrieEntry?, n: TrieEntry, f: TrieEntry, down: TrieEntry, peer: Peer)
      requires Ready(G(), nodes, parent, n, down, peer, trieEntries)
      requires CellOf(n) == Cell(peer, NoPair, Unset, true)
      requires WellEncoded(f) && Forks(f.key, n.key, down.key) && CellOf(f) == Cell(null, NoPair, Unset, false)
      modifies this`IPv4, this`IPv6, this`at, this`nodes, n, f, parent, down
      ensures Valid() && Routes() == old(Routes())[n.key := peer] && nodes == old(nodes) + {n} + {f}
    {
      hide Ready, Sound, Written, Catalog, Contents, WellEncoded, GraphOf, Forks, Unlinked;
      ghost var g, ns := G(), nodes;
      ForkedKeys(f, n, down);
      GraphCells(g, ns, Pair(IPv4, IPv6), at);
      SplitReady(g, ns, parent, n, f, down, peer, trieEntries);
      at, nodes := g.at[n.key := n], ns + {n};
      at, nodes := at[f.key := f], nodes + {f};
      LinkFork(g, ns, parent, n, f, down);
      SplitDone(g, Pair(IPv4, IPv6), ns, parent, n, f, down, peer, trieEntries);
    }

    method AddToPeerEntries(n: TrieEntry, peer: Peer)
      requires n.peer == peer
      modifies this`trieEntries, n`perPeerElem
      ensures trieEntries == Enlist(old(trieEntries), n, peer) && n.perPeerElem
    {
      trieEntries := trieEntries[peer := (if peer in trieEntries then trieEntries[peer] else []) + [n]];
      n.perPeerElem := true;
    }

    method RemoveFromPeerEntries(n: TrieEntry)
      requires n.perPeerElem ==> n.peer != null && n.peer in trieEntries
      requires !n.perPeerElem ==> n.peer == null
      modifies this`trieEntries, n`perPeerElem
      ensures trieEntries == Unlist(old(trieEntries), n, n.peer) && !n.perPeerElem
    {
      if n.perPeerElem {
        trieEntries := trieEntries[n.peer := Without(trieEntries[n.peer], n)];
        n.perPeerElem := false;
      }
    }

    method ChangePeer(n: TrieEntry, peer: Peer, ghost g: Graph, ghost ns: set<TrieEntry>, ghost c: Cell)
      requires c == CellOf(n).(peer := peer, perPeerElem := true)
      requires g == GraphOf(g.roots, g.at, ns) && Catalog(g.at, ns) && n in ns
      requires if n.perPeerElem then n.peer != null && n.peer in trieEntries else n.peer == null
      modifies this`trieEntries, n
      ensures trieEntries == Enlist(Unlist(old(trieEntries), n, old(n.peer)), n, peer)
      ensures GraphOf(g.roots, g.at, ns) == WithCell(g, n.key, c)
    {
      Snapshot(g.roots, g.at, ns);
      hide Enlist, Unlist, Catalog, GraphOf, WithCell;
      RemoveFromPeerEntries(n);
      n.peer := peer;
      AddToPeerEntries(n, peer);
      OneCell(g, ns, n, c);
    }

    method DropPeer(n: TrieEntry, ghost g: Graph, ghost ns: set<TrieEntry>)
      requires g == GraphOf(g.roots, g.at, ns) && Catalog(g.at, ns) && n in ns
      requires if n.perPeerElem then n.peer != null && n.peer in trieEntries else n.peer == null
      modifies this`trieEntries, n
      ensures trieEntries == Unlist(old(trieEntries), n, old(n.peer))
      ensures GraphOf(g.roots, g.at, ns) == WithCell(g, n.key, old(CellOf(n)).(peer := null, perPeerElem := false))
      ensures CellOf(n) == old(CellOf(n)).(peer := null, perPeerElem := false)
    {
      Snapshot(g.roots, g.at, ns);
      hide Enlist, Unlist, Catalog, GraphOf, WithCell;
      RemoveFromPeerEntries(n);
      n.peer := null;
      OneCell(g, ns, n, old(CellOf(n)).(peer := null, perPeerElem := false));
    }

    /** The prefix is stored already (or is a fork node): give its node to peer. */
    method Repeer(node: TrieEntry, peer: Peer)
      requires Valid() && node in nodes && Holds(G(), node)
      modifies this`trieEntries, node
      ensures Valid() && Routes() == old(Routes())[node.key := peer]
    {
      ghost var g, ns := G(), nodes;
      hide Sound, Contents, Catalog, Enlist, Unlist, Almost;
      SoundNode(g, trieEntries, node);
      CellHere(g.roots, g.at, ns, node);
      ghost var c := CellOf(node).(peer := peer, perPeerElem := true);
      RepeerDone(g, WithCell(g, node.key, c), node, peer, trieEntries);
      hide WithCell, GraphOf;
      ChangePeer(node, peer, g, ns, c);
    }

    /** Create the node for ip/cidr and put it into its peer's list. */
    method NewEntry(ip: seq<bool>, cidr: nat, peer: Peer, ghost parent: TrieEntry?)
      returns (n: TrieEntry, ghost d: TrieEntry?)
      requires Valid() && cidr <= |ip| && (|ip| == 32 || |ip| == 128)
      requires PlacedAt(G(), parent, PrefixKey(ip, cidr))
      modifies this`trieEntries
      ensures fresh(n) && n.key == PrefixKey(ip, cidr) && n.cidr == cidr && |n.bits| == |ip|
      ensures CellOf(n) == Cell(peer, NoPair, Unset, true)
      ensures G() == old(G())
      ensures Ready(G(), nodes, parent, n, d, peer, trieEntries)
    {
      ghost var g := G();
      n := new TrieEntry(ip, cidr, peer);
      ReadyIntro(g, nodes, parent, n, peer, trieEntries);
      d := Deref(g, NextSlot(parent, n.key));
      hide *;
      AddToPeerEntries(n, peer);
    }

    /** The occupant of the slot for the new node n, read the way insert reads it. */
    lemma ReadOccupant(top: TrieEntry?, node: TrieEntry?, n: TrieEntry, down: TrieEntry?, peer: Peer)
      requires Ready(G(), nodes, node, n, down, peer, trieEntries)
      requires (|n.bits| == 32 && top == IPv4) || (|n.bits| == 128 && top == IPv6)
      ensures n !in nodes
      ensures node != null ==> node in nodes && WellEncoded(node) && node.cidr < |n.bits|
      ensures down != null ==> down in nodes
      ensures down == if node == null then top else node.child.At(Choose(node, n.bits))
    {
      hide Ready, Catalog;
      ReadyFacts(G(), nodes, node, n, down, peer, trieEntries);
      ReadyOccupant(G(), nodes, node, n, down, peer, trieEntries);
      if node != null {
        BitBelow(node, n);
        CellHere(Pair(IPv4, IPv6), at, nodes, node);
      }
    }

    /** Create the fork node at the first bit where newNode and down differ. */
    method ForkAt(parent: TrieEntry?, n: TrieEntry, down: TrieEntry, cidr: nat, peer: Peer)
      requires Ready(G(), nodes, parent, n, down, peer, trieEntries) && n !in nodes
      requires down in nodes && (parent != null ==> parent in nodes)
      requires CellOf(n) == Cell(peer, NoPair, Unset, true)
      requires |n.bits| == 32 || |n.bits| == 128
      requires cidr <= |n.bits| && Forks(PrefixKey(n.bits, cidr), n.key, down.key)
      modifies this, nodes, n
      ensures Valid() && Routes() == old(Routes())[n.key := peer]
      ensures fresh(nodes - old(nodes) - {n})
    {
      hide Ready, Valid, Routes, WellEncoded, Mask, Forks;
      var fork := new TrieEntry(n.bits, cidr, null);
      SplitSlot(parent, n, fork, down, peer);
    }

    /** insert, from the creation of newNode on; ip is now the masked address. */
    method InsertBelow(top: TrieEntry?, node: TrieEntry?, newNode: TrieEntry, peer: Peer, ghost d: TrieEntry?)
      requires Ready(G(), nodes, node, newNode, d, peer, trieEntries)
      requires CellOf(newNode) == Cell(peer, NoPair, Unset, true)
      requires (|newNode.bits| == 32 && top == IPv4) || (|newNode.bits| == 128 && top == IPv6)
      modifies this, nodes, newNode
      ensures Valid() && Routes() == old(Routes())[newNode.key := peer]
      ensures fresh(nodes - old(nodes) - {newNode})
    {
      hide Ready, Valid, Routes, WellEncoded;
      ghost var g := G();
      ReadOccupant(top, node, newNode, d, peer);
      var ip, cidr := newNode.bits, newNode.cidr;
      var down := if node == null then top else node.child.At(Choose(node, ip));
      if down == null {
        Attach(node, newNode, null, peer);
        return;
      }
      Occupant(g, nodes, node, newNode, down, peer, trieEntries);
      Parting(newNode, down);
      var common := CommonBits(down.bits, ip);
      if common < cidr {
        cidr := common;
      }
      if newNode.cidr == cidr {
        Attach(node, newNode, down, peer);
        return;
      }
      ForkAt(node, newNode, down, cidr, peer);
    }

    /** parentIndirection.insert.  (The source treats an empty trie apart, with the same effect.) */
    method InsertFrom(top: TrieEntry?, ip: seq<bool>, cidr: nat, peer: Peer)
      requires Valid() && cidr <= |ip|
      requires (|ip| == 32 && top == IPv4) || (|ip| == 128 && top == IPv6)
      modifies this, nodes
      ensures Valid() && Routes() == old(Routes())[PrefixKey(ip, cidr) := peer]
      ensures fresh(nodes - old(nodes))
    {
      hide Ready, Valid, Contents, WellEncoded, Mask, PlacedAt, Deref;
      var node, exact := NodePlacement(top, ip, cidr);
      if exact {
        Repeer(node, peer);
        return;
      }
      ghost var d;
      var newNode;
      newNode, d := NewEntry(ip, cidr, peer, node);
      InsertBelow(top, node, newNode, peer, d);
    }

    /** Take node, which has no child on side !bit, out of the trie: its slot gets its
        other child (or nil). */
    method Unlink(ghost g: Graph, ghost ns: set<TrieEntry>, node: TrieEntry, bit: bool)
      requires Pair(IPv4, IPv6) == g.roots
      requires forall o | o in ns :: o.key in g.cells && CellOf(o) == g.cells[o.key]
      requires Catalog(g.at, ns) && node in ns && !node.parent.Unset?
      requires node.parent.Child? ==> node.parent.owner in ns && node.parent.owner != node
      requires var c := node.child.At(bit); c != null ==> c in ns && c != node
      requires var c := node.child.At(bit); node.parent.Child? ==> node.parent.owner != c
      modifies this`IPv4, this`IPv6, node.child.At(bit), if node.parent.Child? then {node.parent.owner} else {}
      ensures CutOut(g, Pair(IPv4, IPv6), ns, node, bit)
    {
      var child := node.child.At(bit);
      if child != null {
        child.parent := node.parent;
      }
      match node.parent {
        case Root(v6) => if v6 { IPv6 := child; } else { IPv4 := child; }
        case Child(o, b) => o.child := o.child.With(b, child);
      }
    }

    /** unlink, as a change of the graph. */
    method Splice(node: TrieEntry, bit: bool)
      requires Catalog(at, nodes) && Shape(G()) && node in nodes && node.child.At(!bit) == null
      modifies this`IPv4, this`IPv6, this`at, this`nodes, nodes
      ensures Catalog(at, nodes) && nodes == old(nodes) - {node}
      ensures Shape(G()) && node.key in old(G()).at && ParentOK(old(G()), node.key)
      ensures Spliced(old(G()), G(), node.key, bit)
      ensures CellOf(node) == old(CellOf(node))
    {
      ghost var g, ns := G(), nodes;
      CutReady(g, ns, node, bit);
      Snapshot(g.roots, at, ns);
      at, nodes := at - {node.key}, nodes - {node};
      hide Catalog, Shape, CutOut, Spliced;
      Unlink(g, ns, node, bit);
      SpliceDone(g, Pair(IPv4, IPv6), ns, node, bit);
    }

    /** The first step of remove: the node loses its peer. */
    method Disown(node: TrieEntry)
      requires Valid() && node in nodes
      modifies this`trieEntries, node
      ensures Catalog(at, nodes) && Almost(G(), trieEntries, {node.key})
      ensures CellOf(node) == old(CellOf(node)).(peer := null, perPeerElem := false)
      ensures Routes() == old(Routes()) - {node.key}
      ensures trieEntries == Unlist(old(trieEntries), node, old(node.peer))
    {
      ghost var g, ns := G(), nodes;
      assert Holds(g, node);
      hide Sound, Almost, Contents, Catalog, Unlist;
      SoundNode(g, trieEntries, node);
      CellHere(g.roots, g.at, ns, node);
      ghost var c := CellOf(node).(peer := null, perPeerElem := false);
      DisownDone(g, WithCell(g, node.key, c), node, trieEntries);
      hide WithCell, GraphOf;
      DropPeer(node, g, ns);
    }

    /** Take a node without a peer and with at most one child out of the trie. */
    method Prune(node: TrieEntry, bit: bool)
      requires Catalog(at, nodes) && Almost(G(), trieEntries, {node.key}) && node in nodes
      requires node.peer == null && node.child.At(!bit) == null
      modifies this`IPv4, this`IPv6, this`at, this`nodes, nodes
      ensures Catalog(at, nodes) && nodes == old(nodes) - {node} && CellOf(node) == old(CellOf(node))
      ensures Almost(G(), trieEntries, Exposed(CellOf(node), bit))
      ensures Routes() == old(Routes())
      ensures node.parent.Child? && node.child.At(bit) == null ==>
        var o, b := node.parent.owner, node.parent.bit;
        o in nodes && o.child.At(b) == null && (o.peer == null ==> o.child.At(!b) != null)
      ensures !node.parent.Unset?
    {
      ghost var g := G();
      PruneReady(g, nodes, node, trieEntries);
      hide Catalog, Shape, Spliced, Almost, Contents;
      Splice(node, bit);
      PruneDone(g, G(), nodes, node, bit, trieEntries);
    }

    method ZeroizePointers(node: TrieEntry)
      requires node !in nodes
      modifies node
      ensures G() == old(G())
    {
      node.peer, node.child, node.parent := null, NoPair, Unset;
    }

    /** The rest of remove, for a node without a peer that lacks a child. */
    method Collapse(node: TrieEntry, bit: bool)
      requires Catalog(at, nodes) && Almost(G(), trieEntries, {node.key}) && node in nodes
      requires node.peer == null && node.child.At(!bit) == null
      modifies this`IPv4, this`IPv6, this`at, this`nodes, nodes
      ensures Catalog(at, nodes) && Sound(G(), trieEntries) && nodes <= old(nodes)
      ensures Routes() == old(Routes())
    {
      hide Contents, Catalog, Almost;
      Prune(node, bit);
      if node.child.At(bit) != null || node.parent.Root? {
        ZeroizePointers(node);
        return;
      }
      var parent := node.parent.owner;
      if parent.peer != null {
        CellHere(Pair(IPv4, IPv6), at, nodes, parent);
        Exonerated(G(), nodes, parent, trieEntries);
        ZeroizePointers(node);
        return;
      }
      Prune(parent, !node.parent.bit);
      ZeroizePointers(node);
      ZeroizePointers(parent);
    }

    /** remove: the node loses its peer and, unless it has two children, leaves the trie;
        a fork node above it that is left with one child leaves with it. */
    method RemoveNode(node: TrieEntry)
      requires Valid() && node in nodes
      modifies this, nodes
      ensures Valid() && Routes() == old(Routes()) - {node.key}
      ensures trieEntries == Unlist(old(trieEntries), node, old(node.peer)) && nodes <= old(nodes)
    {
      hide Sound, Contents, Catalog, Almost, Unlist;
      Disown(node);
      if node.child.zero != null && node.child.one != null {
        CellHere(Pair(IPv4, IPv6), at, nodes, node);
        StillFull(G(), nodes, node, trieEntries);
        return;
      }
      Collapse(node, node.child.zero == null);
    }

    /** Remove: only the given peer's own prefix is removed. */
    method Remove(ip: seq<bool>, cidr: nat, peer: Peer?)
      requires Valid() && cidr <= |ip| && (|ip| == 32 || |ip| == 128)
      modifies this, nodes
      ensures Valid() && nodes <= old(nodes)
      ensures var k := PrefixKey(ip, cidr);
        Routes() == if k in old(Routes()) && old(Routes())[k] == peer then old(Routes()) - {k} else old(Routes())
    {
      hide Valid, Contents, PlacedAt, Routes;
      var node, exact := NodePlacement(if |ip| == 128 then IPv6 else IPv4, ip, cidr);
      StoredOrNot(node, exact, PrefixKey(ip, cidr));
      if !exact || node == null || peer != node.peer {
        return;
      }
      RemoveNode(node);
    }

    lemma StoredOrNot(node: TrieEntry?, exact: bool, q: Key)
      requires Valid() && (if exact then node != null && node in nodes && node.key == q else PlacedAt(G(), node, q))
      ensures !exact ==> q !in Routes()
      ensures exact ==> if node.peer == null then q !in Routes() else q in Routes() && Routes()[q] == node.peer
    {
    }

    /** RemoveByPeer: removes the nodes of the peer's list one after the other. */
    method RemoveByPeer(peer: Peer)
      requires Valid()
      modifies this, nodes
      ensures Valid() && nodes <= old(nodes)
      ensures Routes() == map k | k in old(Routes()) && old(Routes())[k] != peer :: old(Routes())[k]
    {
      hide Valid, Routes;
      while peer in trieEntries && trieEntries[peer] != []
        invariant Valid() && nodes <= old(nodes)
        invariant forall k | k in Routes() :: k in old(Routes()) && Routes()[k] == old(Routes())[k]
        invariant forall k | k in old(Routes()) && old(Routes())[k] != peer :: k in Routes()
        decreases |ListFor(trieEntries, peer)|
      {
        var node := trieEntries[peer][0];
        Listed(peer, node);
        RemoveNode(node);
      }
      AllGone(peer);
    }

    lemma Listed(peer: Peer, node: TrieEntry)
      requires Valid() && peer in trieEntries && node in trieEntries[peer]
      ensures node in nodes && node.peer == peer && node.key in Routes() && Routes()[node.key] == peer
      ensures node.key in at && at[node.key] == node && IsPrefix((node.bits, node.cidr))
      ensures KeyOfPrefix((node.bits, node.cidr)) == node.key
      ensures NoDuplicates(trieEntries[peer])
    {
      assert WellEncoded(node) || node !in nodes;
      assert WellEncoded(node) ==> Mask(node.bits, node.cidr) == node.bits by {
        MaskIdle(node.bits, node.cidr);
      }
      assert Owns(G(), peer, node);
    }

    lemma AllGone(peer: Peer)
      requires Valid() && ListFor(trieEntries, peer) == []
      ensures forall k | k in Routes() :: Routes()[k] != peer
    {
    }

    method Insert(ip: seq<bool>, cidr: nat, peer: Peer)
      requires Valid() && cidr <= |ip| && (|ip| == 32 || |ip| == 128)
      modifies this, nodes
      ensures Valid() && fresh(nodes - old(nodes))
      ensures Routes() == old(Routes())[PrefixKey(ip, cidr) := peer]
    {
      InsertFrom(if |ip| == 128 then IPv6 else IPv4, ip, cidr, peer);
    }

    method Lookup(ip: seq<bool>) returns (found: Peer?)
      requires Valid() && (|ip| == 32 || |ip| == 128)
      ensures IsMatch(Routes(), AddressKey(ip), found)
    {
      found := LookupFrom(if |ip| == 128 then IPv6 else IPv4, ip);
    }

    /** `prefixes` are those that the callback is given: it refuses none but the last one, and
        they are all of the peer's unless it refuses that. */
    method EntriesForPeer(peer: Peer, cb: ((seq<bool>, nat)) -> bool) returns (prefixes: seq<(seq<bool>, nat)>)
      requires Valid()
      ensures forall i | 0 <= i < |prefixes| :: IsPrefix(prefixes[i])
      ensures forall i, j | 0 <= i < j < |prefixes| :: KeyOfPrefix(prefixes[i]) != KeyOfPrefix(prefixes[j])
      ensures forall i | 0 <= i < |prefixes| ::
        var k := KeyOfPrefix(prefixes[i]); k in Routes() && Routes()[k] == peer
      ensures forall i | 0 <= i < |prefixes| - 1 :: cb(prefixes[i])
      ensures prefixes == [] || cb(prefixes[|prefixes| - 1]) ==> forall k | k in Routes() && Routes()[k] == peer ::
        exists i | 0 <= i < |prefixes| :: KeyOfPrefix(prefixes[i]) == k
    {
      hide Valid, Routes, WellEncoded, IsPrefix, KeyOfPrefix;
      prefixes := [];
      var list := if peer in trieEntries then trieEntries[peer] else [];
      ListedPrefixes(peer, list);
      for i := 0 to |list|
        invariant |prefixes| == i
        invariant forall j | 0 <= j < i :: prefixes[j] == (list[j].bits, list[j].cidr) && cb(prefixes[j])
      {
        prefixes := prefixes + [(list[i].bits, list[i].cidr)];
        if !cb(prefixes[i]) {
          return;
        }
      }
      forall k | k in Routes() && Routes()[k] == peer
        ensures exists i | 0 <= i < |prefixes| :: KeyOfPrefix(prefixes[i]) == k
      {
        Found(peer, k);
        var i :| 0 <= i < |list| && list[i].key == k;
        assert KeyOfPrefix(prefixes[i]) == k;
      }
    }

    lemma ListedPrefixes(peer: Peer, list: seq<TrieEntry>)
      requires Valid() && list == if peer in trieEntries then trieEntries[peer] else []
      ensures forall i | 0 <= i < |list| ::
        var x := (list[i].bits, list[i].cidr);
        IsPrefix(x) && KeyOfPrefix(x) == list[i].key && list[i].key in Routes() && Routes()[list[i].key] == peer
      ensures forall i, j | 0 <= i < j < |list| :: list[i].key != list[j].key
    {
      hide Valid, Routes, WellEncoded;
      forall i | 0 <= i < |list|
        ensures var x := (list[i].bits, list[i].cidr);
          IsPrefix(x) && KeyOfPrefix(x) == list[i].key && list[i].key in Routes() && Routes()[list[i].key] == peer
      {
        Listed(peer, list[i]);
      }
      forall i, j | 0 <= i < j < |list| ensures list[i].key != list[j].key {
        Listed(peer, list[i]);
        Listed(peer, list[j]);
      }
    }

    lemma Found(peer: Peer, k: Key)
      requires Valid() && k in Routes() && Routes()[k] == peer
      ensures peer in trieEntries && exists n | n in trieEntries[peer] :: n.key == k
    {
      assert at[k] in trieEntries[peer] && at[k].key == k;
    }
  }

  /** A node with a peer, or with both children, needs no exception. */
  lemma Exonerated(g: Graph, ns: set<TrieEntry>, n: TrieEntry, lists: map<Peer, seq<TrieEntry>>)
    requires Catalog(g.at, ns) && n in ns && Almost(g, lists, {n.key})
    requires n.key in g.cells && g.cells[n.key].peer != null
    ensures Sound(g, lists)
  {
  }

  lemma StillFull(g: Graph, ns: set<TrieEntry>, n: TrieEntry, lists: map<Peer, seq<TrieEntry>>)
    requires Catalog(g.at, ns) && n in ns && Almost(g, lists, {n.key})
    requires n.key in g.cells && g.cells[n.key].child.zero != null && g.cells[n.key].child.one != null
    ensures Sound(g, lists)
  {
  }

  lemma DisownDone(g: Graph, g': Graph, n: TrieEntry, lists: map<Peer, seq<TrieEntry>>)
    requires Sound(g, lists) && Holds(g, n)
    requires g' == g.(cells := g.cells[n.key := g.cells[n.key].(peer := null, perPeerElem := false)])
    ensures Almost(g', Unlist(lists, n, g.cells[n.key].peer), {n.key})
    ensures Contents(g') == Contents(g) - {n.key}
  {
    assert Repeered(g, g', n.key, null);
    hide ListsOK, Unlist, Contents;
    UnlistKeeps(g, g', n.key, lists);
    RepeeredKeepsShape(g, g', n.key, null);
    TakenContents(g, g', n.key);
  }

  lemma PruneReady(g: Graph, ns: set<TrieEntry>, n: TrieEntry, lists: map<Peer, seq<TrieEntry>>)
    requires Catalog(g.at, ns) && Almost(g, lists, {n.key}) && n in ns
    ensures Shape(g) && Holds(g, n) && n.key in g.cells
  {
  }

  lemma PruneDone(g: Graph, g': Graph, ns': set<TrieEntry>, n: TrieEntry, b: bool, lists: map<Peer, seq<TrieEntry>>)
    requires Almost(g, lists, {n.key}) && n.key in g.at && g.cells[n.key].peer == null
    requires Shape(g) && ParentOK(g, n.key) && Spliced(g, g', n.key, b)
    requires Shape(g') && Catalog(g'.at, ns')
    ensures Almost(g', lists, Exposed(g.cells[n.key], b)) && Contents(g') == Contents(g)
    ensures var s := g.cells[n.key].parent;
      !s.Unset? && (s.Child? && g.cells[n.key].child.At(b) == null ==>
        var c := s.owner.key;
        && s.owner in ns' && c in g'.cells
        && g'.cells[c].child.At(s.bit) == null
        && (g'.cells[c].peer == null ==> g'.cells[c].child.At(!s.bit) != null))
  {
    SplicedKeepsFull(g, g', n.key, b);
    SplicedKeepsLists(g, g', n.key, b, lists);
    SplicedContents(g, g', n.key, b);
    var s := g.cells[n.key].parent;
    assert Deref(g', SlotOf(s)) == g.cells[n.key].child.At(b);
  }

  lemma SpliceDone(g: Graph, roots: Pair, ns: set<TrieEntry>, node: TrieEntry, bit: bool)
    requires Shape(g) && Catalog(g.at, ns) && node in ns && CutOut(g, roots, ns, node, bit)
    requires node.key in g.at && ParentOK(g, node.key) && g.cells[node.key].child.At(!bit) == null
    ensures Catalog(g.at - {node.key}, ns - {node})
    ensures var g' := GraphOf(roots, g.at - {node.key}, ns - {node});
      Spliced(g, g', node.key, bit) && Shape(g')
  {
    hide Catalog, CutOut, Spliced;
    CutOutSplices(g, roots, ns, node, bit);
    SplicedKeepsShape(g, GraphOf(roots, g.at - {node.key}, ns - {node}), node.key, bit);
  }

  /** The nodes ns held g; node was cut out of them. */
  ghost predicate CutOut(g: Graph, roots: Pair, ns: set<TrieEntry>, node: TrieEntry, bit: bool)
    reads ns
  {
    && node.key in g.cells && !g.cells[node.key].parent.Unset?
    && var s, c := g.cells[node.key].parent, g.cells[node.key].child.At(bit);
    && (forall o | o in ns && o != c && !(s.Child? && o == s.owner) :: o.key in g.cells && CellOf(o) == g.cells[o.key])
    && (s.Child? && s.owner in ns ==>
      && s.owner.key in g.cells
      && CellOf(s.owner) == g.cells[s.owner.key].(child := g.cells[s.owner.key].child.With(s.bit, c)))
    && (c != null && c in ns ==> c.key in g.cells && CellOf(c) == g.cells[c.key].(parent := s))
    && roots == if s.Root? then g.roots.With(s.v6, c) else g.roots
  }

  /** What the shape says about a node about to be cut out. */
  lemma CutReady(g: Graph, ns: set<TrieEntry>, node: TrieEntry, bit: bool)
    requires Shape(g) && Catalog(g.at, ns) && node in ns
    ensures node.key in g.cells && ParentOK(g, node.key)
    ensures var s, c := g.cells[node.key].parent, g.cells[node.key].child.At(bit);
      && !s.Unset?
      && (s.Child? ==> s.owner in ns && s.owner != node && s.owner != c && s.owner.key < node.key)
      && (c != null ==> c in ns && c != node && node.key < c.key)
  {
    var k := node.key;
    assert ParentOK(g, k);
    var s := g.cells[k].parent;
    assert SlotOK(g, SlotOf(s)) && SlotOK(g, Sub(k, bit));
  }

  lemma CutOutSplices(g: Graph, roots: Pair, ns: set<TrieEntry>, node: TrieEntry, bit: bool)
    requires Shape(g) && Catalog(g.at, ns) && node in ns && CutOut(g, roots, ns, node, bit)
    requires node.key in g.at && ParentOK(g, node.key)
    ensures Catalog(g.at - {node.key}, ns - {node})
    ensures Spliced(g, GraphOf(roots, g.at - {node.key}, ns - {node}), node.key, bit)
  {
    hide ParentOK, CutOut, WellEncoded;
    var g' := GraphOf(roots, g.at - {node.key}, ns - {node});
    CutReady(g, ns, node, bit);
    CutCatalog(g, ns, node);
    GraphTyped(g', roots, g.at - {node.key}, ns - {node});
    assert Typed(g);
    hide GraphOf, Shape, Catalog;
    var s0, c := SlotOf(g.cells[node.key].parent), g.cells[node.key].child.At(bit);
    forall m | m in g'.at
      ensures g'.cells[m].peer == g.cells[m].peer && g'.cells[m].perPeerElem == g.cells[m].perPeerElem
      ensures g'.cells[m].parent == if g.at[m] == c then g.cells[node.key].parent else g.cells[m].parent
    {
      CutCell(g, g', roots, ns, node, bit, m);
    }
    forall s | IsSlot(g'.at.Keys, s) ensures Deref(g', s) == if s == s0 then c else Deref(g, s) {
      if s.Sub? { CutCell(g, g', roots, ns, node, bit, s.k); } else { CutRoot(g, g', roots, ns, node, bit); }
    }
  }

  lemma CutCatalog(g: Graph, ns: set<TrieEntry>, node: TrieEntry)
    requires Catalog(g.at, ns) && node in ns
    ensures Catalog(g.at - {node.key}, ns - {node})
  {
  }

  lemma GraphTyped(g: Graph, roots: Pair, at: map<Key, TrieEntry>, nodes: set<TrieEntry>)
    requires g == GraphOf(roots, at, nodes) && Catalog(at, nodes)
    ensures Typed(g) && g.at == at && g.roots == roots
  {
    assert g.cells.Keys == at.Keys;
    assert forall k | k in at :: WellEncoded(at[k]);
  }

  /** What the cut leaves of the node with key m. */
  lemma CutCell(g: Graph, g': Graph, roots: Pair, ns: set<TrieEntry>, node: TrieEntry, bit: bool, m: Key)
    requires Shape(g) && Catalog(g.at, ns) && node in ns && CutOut(g, roots, ns, node, bit)
    requires g' == GraphOf(roots, g.at - {node.key}, ns - {node}) && m in g'.at
    ensures node.key in g.cells && m in g'.cells && m in g.cells
    ensures var s, c := g.cells[node.key].parent, g.cells[node.key].child.At(bit);
      && g'.cells[m].peer == g.cells[m].peer && g'.cells[m].perPeerElem == g.cells[m].perPeerElem
      && g'.cells[m].parent == (if g.at[m] == c then s else g.cells[m].parent)
      && forall b :: g'.cells[m].child.At(b) == if s == Child(g.at[m], b) then c else g.cells[m].child.At(b)
  {
    CutReady(g, ns, node, bit);
    assert g.at[m] in ns - {node};
  }

  lemma CutRoot(g: Graph, g': Graph, roots: Pair, ns: set<TrieEntry>, node: TrieEntry, bit: bool)
    requires CutOut(g, roots, ns, node, bit) && g'.roots == roots
    ensures var s, c := g.cells[node.key].parent, g.cells[node.key].child.At(bit);
      forall f :: g'.roots.At(f) == if s == Root(f) then c else g.roots.At(f)
  {
  }

  /** A freshly created node for q, once listed, is ready for the slot found for q. */
  lemma ReadyIntro(g: Graph, ns: set<TrieEntry>, parent: TrieEntry?, n: TrieEntry, peer: Peer, lists: map<Peer,
                   seq<TrieEntry>>)
    requires Sound(g, lists) && Catalog(g.at, ns) && PlacedAt(g, parent, n.key) && WellEncoded(n)
    ensures Ready(g, ns, parent, n, Deref(g, NextSlot(parent, n.key)), peer, Enlist(lists, n, peer))
  {
    AppendPending(g, lists, n, peer);
  }

  lemma ReadyOccupant(g: Graph, ns: set<TrieEntry>, parent: TrieEntry?, n: TrieEntry, down: TrieEntry?,
                      peer: Peer, lists: map<Peer, seq<TrieEntry>>)
    requires Ready(g, ns, parent, n, down, peer, lists)
    ensures g.at.Keys == g.cells.Keys && Catalog(g.at, ns)
    ensures parent != null ==> WellEncoded(parent) && parent.key in g.cells && |parent.key| < |n.key|
    ensures down == if parent == null then g.roots.At(n.key[0]) else g.cells[parent.key].child.At(n.key[|parent.key|])
  {
    assert parent != null ==> parent in ns && WellEncoded(parent);
  }

  lemma BitBelow(node: TrieEntry, n: TrieEntry)
    requires WellEncoded(node) && WellEncoded(n) && node.key < n.key
    ensures node.cidr < |n.bits| && n.key[|node.key|] == n.bits[node.cidr]
  {
  }

  /** The occupant of the slot for n does not contain n, and has the same width. */
  lemma Occupant(g: Graph, ns: set<TrieEntry>, parent: TrieEntry?, n: TrieEntry, down: TrieEntry, peer: Peer,
                 lists: map<Peer, seq<TrieEntry>>)
    requires Ready(g, ns, parent, n, down, peer, lists)
    ensures WellEncoded(n) && WellEncoded(down) && |down.bits| == |n.bits| && !(down.key <= n.key)
  {
    ReadyFacts(g, ns, parent, n, down, peer, lists);
    assert SlotOK(g, NextSlot(parent, n.key));
    assert WellEncoded(down);
    assert Path(NextSlot(parent, n.key))[0] == n.key[0] == down.key[0];
  }

  lemma SoundNode(g: Graph, lists: map<Peer, seq<TrieEntry>>, n: TrieEntry)
    requires Sound(g, lists) && Holds(g, n)
    ensures n.key in g.cells
    ensures var c := g.cells[n.key]; (c.perPeerElem <==> c.peer != null) && (c.peer != null ==> c.peer in lists)
  {
  }

  lemma RepeerLists(g: Graph, g': Graph, n: TrieEntry, p: Peer, lists: map<Peer, seq<TrieEntry>>)
    requires Typed(g) && ListsOK(g, lists, null, null) && Holds(g, n) && Repeered(g, g', n.key, p)
    ensures Typed(g') && ListsOK(g', Enlist(Unlist(lists, n, g.cells[n.key].peer), n, p), null, null)
  {
    var g1 := g.(cells := g.cells[n.key := g.cells[n.key].(peer := null, perPeerElem := false)]);
    UnlistKeeps(g, g1, n.key, lists);
    EnlistKeeps(g1, g', n.key, p, Unlist(lists, n, g.cells[n.key].peer));
  }

  lemma RepeerDone(g: Graph, g': Graph, n: TrieEntry, p: Peer, lists: map<Peer, seq<TrieEntry>>)
    requires Sound(g, lists) && Holds(g, n)
    requires g' == g.(cells := g.cells[n.key := g.cells[n.key].(peer := p, perPeerElem := true)])
    ensures Sound(g', Enlist(Unlist(lists, n, g.cells[n.key].peer), n, p))
    ensures Contents(g') == Contents(g)[n.key := p]
  {
    assert Repeered(g, g', n.key, p);
    hide ListsOK, Enlist, Unlist, Contents;
    RepeerLists(g, g', n, p, lists);
    RepeeredKeepsShape(g, g', n.key, p);
    GivenContents(g, g', n.key, p);
  }
}
