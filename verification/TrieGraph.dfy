/** The pointer structure of the allowed-IPs tries, as a value.

    `Graph` is a snapshot of both tries of a table: the two root pointers, the node
    registered under each key, and the mutable fields of every node.  The heap code of
    module AllowedIPsTable is proved against relations between graphs, and the invariants
    are preserved by lemmas that never mention the heap. */
module TrieGraph {
  import opened Basics
  import opened PrefixSets

  /** A peer, known here by its identity only. */
  class Peer {
    constructor () {}
  }

  /** A node.  Addresses are held bit by bit, most significant first, so byte i of the
      address is bits[8 * i .. 8 * i + 8]. */
  class TrieEntry {
    var peer: Peer?
    var child: Pair
    var parent: Parent
    var perPeerElem: bool            // is there an element for this node in its peer's list?
    const cidr: nat
    const bitAtByte: nat
    const bitAtShift: int
    const bits: seq<bool>
    ghost const key: Key

    /** A composite literal followed by maskSelf: the bits after cidr are cleared. */
    constructor (ip: seq<bool>, cidr: nat, peer: Peer?)
      requires cidr <= |ip| && (|ip| == 32 || |ip| == 128)
      ensures WellEncoded(this) && |bits| == |ip| && this.cidr == cidr
      ensures key == [|ip| == 128] + ip[..cidr]
      ensures this.peer == peer && child == NoPair && parent == Unset && !perPeerElem
    {
      this.peer, this.child, this.parent, this.perPeerElem := peer, NoPair, Unset, false;
      this.cidr, this.bitAtByte, this.bitAtShift := cidr, cidr / 8, 7 - cidr % 8;
      this.bits := Mask(ip, cidr);
      this.key := [|ip| == 128] + ip[..cidr];
    }
  }

  /** The address ip with the bits after cidr cleared. */
  function Mask(ip: seq<bool>, cidr: nat): (m: seq<bool>)
    requires cidr <= |ip|
    ensures |m| == |ip| && m[..cidr] == ip[..cidr]
    ensures forall i | cidr <= i < |m| :: !m[i]
  {
    ip[..cidr] + seq(|ip| - cidr, _ => false)
  }

  /** The fields of a node are consistent and the bits after its cidr are zero. */
  ghost predicate WellEncoded(n: TrieEntry) {
    && (|n.bits| == 32 || |n.bits| == 128)
    && n.cidr <= |n.bits|
    && n.bitAtByte == n.cidr / 8
    && n.bitAtShift == 7 - n.cidr % 8
    && n.key == [|n.bits| == 128] + n.bits[..n.cidr]
    && (forall i | n.cidr <= i < |n.bits| :: !n.bits[i])
  }

  /** Two pointers selected by a bit: a node's children, or the table's two roots. */
  datatype Pair = Pair(zero: TrieEntry?, one: TrieEntry?) {
    function At(b: bool): TrieEntry? { if b then one else zero }
    function With(b: bool, n: TrieEntry?): Pair { if b then Pair(zero, n) else Pair(n, one) }
  }

  const NoPair := Pair(null, null)

  /** parentIndirection: which pointer points to the node. */
  datatype Parent = Unset | Root(v6: bool) | Child(owner: TrieEntry, bit: bool)

  datatype Cell = Cell(peer: Peer?, child: Pair, parent: Parent, perPeerElem: bool)

  datatype Graph = Graph(roots: Pair, at: map<Key, TrieEntry>, cells: map<Key, Cell>)

  ghost function KeyOf(n: TrieEntry?): Option<Key> {
    if n == null then None else Some(n.key)
  }

  ghost predicate Typed(g: Graph) {
    && g.cells.Keys == g.at.Keys
    && (forall k | k in g.at :: |k| > 0 && g.at[k].key == k)
  }

  ghost predicate Holds(g: Graph, n: TrieEntry) {
    n.key in g.at && g.at[n.key] == n
  }

  /** The pointer stored in slot s. */
  ghost function Deref(g: Graph, s: Slot): TrieEntry?
    requires Typed(g) && IsSlot(g.at.Keys, s)
  {
    match s
    case Top(f) => g.roots.At(f)
    case Sub(k, b) => g.cells[k].child.At(b)
  }

  /** The slot that a parentIndirection names. */
  ghost predicate ValidParent(g: Graph, p: Parent) {
    match p
    case Unset => false
    case Root(_) => true
    case Child(o, _) => Holds(g, o)
  }

  ghost function SlotOf(p: Parent): Slot
    requires !p.Unset?
  {
    match p
    case Root(f) => Top(f)
    case Child(o, b) => Sub(o.key, b)
  }

  /** The pointer in slot s is the node of the least key above s. */
  ghost predicate SlotOK(g: Graph, s: Slot)
    requires Typed(g) && IsSlot(g.at.Keys, s)
  {
    var n := Deref(g, s);
    Least(g.at.Keys, Path(s), KeyOf(n)) && (n != null ==> Holds(g, n))
  }

  ghost predicate ParentOK(g: Graph, k: Key)
    requires Typed(g) && k in g.at
  {
    var p := g.cells[k].parent;
    ValidParent(g, p) && Deref(g, SlotOf(p)) == g.at[k]
  }

  /** Every root and child pointer is the least key above its slot, and every node knows
      the one pointer that points to it. */
  ghost predicate Shape(g: Graph) {
    && Typed(g)
    && (forall s {:trigger SlotOK(g, s)} | IsSlot(g.at.Keys, s) :: SlotOK(g, s))
    && (forall k {:trigger ParentOK(g, k)} | k in g.at :: ParentOK(g, k))
  }

  ghost predicate FullCell(c: Cell) {
    c.peer == null ==> c.child.zero != null && c.child.one != null
  }

  /** No node without a peer has fewer than two children. */
  ghost predicate Full(g: Graph, except: set<Key>)
    requires Typed(g)
  {
    forall k | k in g.at && k !in except :: FullCell(g.cells[k])
  }

  ghost function Contents(g: Graph): map<Key, Peer> {
    map k | k in g.cells && g.cells[k].peer != null :: var p: Peer := g.cells[k].peer; p
  }

  /** What a slot may receive: q belongs in slot s0 of g. */
  ghost predicate Accepts(g: Graph, s0: Slot, q: Key) {
    Shape(g) && IsSlot(g.at.Keys, s0) && Free(g.at.Keys, s0, q, KeyOf(Deref(g, s0)))
  }

  /** g' has more nodes than g, and of the old pointers only the one in slot s0 differs. */
  ghost predicate Grown(g: Graph, g': Graph, s0: Slot, added: set<Key>)
    requires Typed(g) && IsSlot(g.at.Keys, s0)
  {
    && Typed(g')
    && g'.at.Keys == g.at.Keys + added
    && (forall k | k in g.at :: g'.at[k] == g.at[k])
    && (forall k | k in g.at ::
          g'.cells[k].peer == g.cells[k].peer && g'.cells[k].perPeerElem == g.cells[k].perPeerElem)
    && (forall k | k in g.at :: g.at[k] == Deref(g, s0) || g'.cells[k].parent == g.cells[k].parent)
    && (forall s | IsSlot(g.at.Keys, s) && s != s0 :: Deref(g', s) == Deref(g, s))
  }

  lemma OldPointersKeep(g: Graph, g': Graph, s0: Slot, q: Key, added: set<Key>, s: Slot)
    requires Accepts(g, s0, q) && Grown(g, g', s0, added)
    requires forall m | m in added :: Path(s0) <= m <= q
    requires IsSlot(g.at.Keys, s) && s != s0
    ensures SlotOK(g', s)
  {
    assert SlotOK(g, s);
    OtherSlotsKeep(g.at.Keys, s0, q, KeyOf(Deref(g, s0)), added, s, KeyOf(Deref(g, s)));
  }

  lemma OldParentsKeep(g: Graph, g': Graph, s0: Slot, added: set<Key>, k: Key)
    requires Shape(g) && IsSlot(g.at.Keys, s0) && Grown(g, g', s0, added)
    requires k in g.at && g.at[k] != Deref(g, s0)
    ensures ParentOK(g', k)
  {
    assert ParentOK(g, k);
  }

  /** Adding nodes between s0 and q keeps the shape if the pointers in s0 and in the new
      nodes, and the parents of the new nodes and of s0's old occupant, are right. */
  lemma GrownKeepsShape(g: Graph, g': Graph, s0: Slot, q: Key, added: set<Key>)
    requires Accepts(g, s0, q) && Grown(g, g', s0, added)
    requires forall m | m in added :: Path(s0) <= m <= q
    requires forall s {:trigger SlotOK(g', s)} |
      IsSlot(g'.at.Keys, s) && (s == s0 || !IsSlot(g.at.Keys, s)) :: SlotOK(g', s)
    requires forall k {:trigger ParentOK(g', k)} |
      k in g'.at && (k !in g.at || g.at[k] == Deref(g, s0)) :: ParentOK(g', k)
    ensures Shape(g')
  {
    forall s | IsSlot(g'.at.Keys, s) ensures SlotOK(g', s) {
      if s != s0 && IsSlot(g.at.Keys, s) {
        OldPointersKeep(g, g', s0, q, added, s);
      }
    }
    forall k | k in g'.at ensures ParentOK(g', k) {
      if k in g.at && g.at[k] != Deref(g, s0) {
        OldParentsKeep(g, g', s0, added, k);
      }
    }
  }

  /** n is the occupant of slot s0 and knows it. */
  ghost predicate Seated(g: Graph, s0: Slot, n: TrieEntry)
    requires Typed(g) && IsSlot(g.at.Keys, s0)
  {
    && Holds(g, n)
    && Deref(g, s0) == n
    && ValidParent(g, g.cells[n.key].parent) && SlotOf(g.cells[n.key].parent) == s0
  }

  /** An insertion that creates the single node n, with the old occupant of s0 (if any)
      as its only child. */
  ghost predicate Placed(g: Graph, g': Graph, s0: Slot, n: TrieEntry)
    requires Accepts(g, s0, n.key)
  {
    && Grown(g, g', s0, {n.key})
    && Seated(g', s0, n)
    && var d, q := Deref(g, s0), n.key;
      if d == null then
        g'.cells[q].child == NoPair
      else
        && q < d.key
        && Holds(g', d)
        && g'.cells[q].child == NoPair.With(d.key[|q|], d)
        && g'.cells[d.key].parent == Child(n, d.key[|q|])
  }

  lemma PlacedSlot(g: Graph, g': Graph, s0: Slot, n: TrieEntry, s: Slot)
    requires Accepts(g, s0, n.key) && Placed(g, g', s0, n)
    requires IsSlot(g'.at.Keys, s) && (s == s0 || !IsSlot(g.at.Keys, s))
    ensures SlotOK(g', s)
  {
    assert SlotOK(g, s0);
    PlaceAbove(g.at.Keys, s0, n.key, KeyOf(Deref(g, s0)));
    if s != s0 {
      assert s == Sub(n.key, s.b);
    }
  }

  lemma PlacedKeepsShape(g: Graph, g': Graph, s0: Slot, n: TrieEntry)
    requires Accepts(g, s0, n.key) && Placed(g, g', s0, n)
    ensures Shape(g')
  {
    forall s | IsSlot(g'.at.Keys, s) && (s == s0 || !IsSlot(g.at.Keys, s)) ensures SlotOK(g', s) {
      PlacedSlot(g, g', s0, n, s);
    }
    GrownKeepsShape(g, g', s0, n.key, {n.key});
  }

  /** An insertion that creates n and the fork node f above n and s0's old occupant d. */
  ghost predicate Forked(g: Graph, g': Graph, s0: Slot, n: TrieEntry, f: TrieEntry, d: TrieEntry)
    requires Accepts(g, s0, n.key)
  {
    && Deref(g, s0) == d
    && Forks(f.key, n.key, d.key)
    && Grown(g, g', s0, {n.key, f.key})
    && Seated(g', s0, f)
    && Holds(g', n) && Holds(g', d)
    && var s, q := f.key, n.key;
      && g'.cells[q].child == NoPair
      && g'.cells[s].child.At(d.key[|s|]) == d
      && g'.cells[s].child.At(q[|s|]) == n
      && g'.cells[d.key].parent == Child(f, d.key[|s|])
      && g'.cells[q].parent == Child(f, q[|s|])
  }

  lemma ForkedSlot(g: Graph, g': Graph, s0: Slot, n: TrieEntry, f: TrieEntry, d: TrieEntry, s: Slot)
    requires Accepts(g, s0, n.key) && Forked(g, g', s0, n, f, d)
    requires IsSlot(g'.at.Keys, s) && (s == s0 || !IsSlot(g.at.Keys, s))
    ensures SlotOK(g', s)
  {
    PlaceFork(g.at.Keys, s0, n.key, d.key, f.key);
    assert g'.at.Keys == g.at.Keys + {n.key, f.key};
    if s != s0 {
      assert s == Sub(n.key, s.b) || s == Sub(f.key, n.key[|f.key|]) || s == Sub(f.key, d.key[|f.key|]);
    }
  }

  lemma ForkedKeepsShape(g: Graph, g': Graph, s0: Slot, n: TrieEntry, f: TrieEntry, d: TrieEntry)
    requires Accepts(g, s0, n.key) && Forked(g, g', s0, n, f, d)
    ensures Shape(g')
  {
    assert Path(s0) <= f.key <= n.key by { PlaceFork(g.at.Keys, s0, n.key, d.key, f.key); }
    forall s | IsSlot(g'.at.Keys, s) && (s == s0 || !IsSlot(g.at.Keys, s)) ensures SlotOK(g', s) {
      ForkedSlot(g, g', s0, n, f, d, s);
    }
    GrownKeepsShape(g, g', s0, n.key, {n.key, f.key});
  }

  lemma GrownKeepsFull(g: Graph, g': Graph, s0: Slot, added: set<Key>)
    requires Typed(g) && IsSlot(g.at.Keys, s0) && Grown(g, g', s0, added)
    requires Deref(g', s0) != null && Full(g, {})
    requires forall k | k in added :: FullCell(g'.cells[k])
    ensures Full(g', {})
  {
    forall k | k in g.at ensures FullCell(g'.cells[k]) {
      assert Deref(g, Sub(k, false)) != null ==> Deref(g', Sub(k, false)) != null;
      assert Deref(g, Sub(k, true)) != null ==> Deref(g', Sub(k, true)) != null;
    }
  }

  /** The node k, which has at most the child in slot Sub(k, b), is taken out of the trie. */
  ghost predicate Spliced(g: Graph, g': Graph, k: Key, b: bool)
    requires Shape(g) && k in g.at && ParentOK(g, k)
  {
    var s0, c := SlotOf(g.cells[k].parent), g.cells[k].child.At(b);
    && Typed(g')
    && g'.at == g.at - {k}
    && (forall m | m in g'.at ::
          g'.cells[m].peer == g.cells[m].peer && g'.cells[m].perPeerElem == g.cells[m].perPeerElem)
    && (forall m | m in g'.at ::
         g'.cells[m].parent == if g.at[m] == c then g.cells[k].parent else g.cells[m].parent)
    && IsSlot(g'.at.Keys, s0)
    && (forall s | IsSlot(g'.at.Keys, s) :: Deref(g', s) == if s == s0 then c else Deref(g, s))
  }

  lemma SplicedSlot(g: Graph, g': Graph, k: Key, b: bool, s: Slot)
    requires Shape(g) && k in g.at && ParentOK(g, k) && Spliced(g, g', k, b)
    requires g.cells[k].child.At(!b) == null
    requires IsSlot(g'.at.Keys, s)
    ensures SlotOK(g', s)
  {
    var s0, c := SlotOf(g.cells[k].parent), g.cells[k].child.At(b);
    assert SlotOK(g, s0) && SlotOK(g, s);
    assert SlotOK(g, Sub(k, b)) && SlotOK(g, Sub(k, !b));
    if s == s0 {
      SpliceSlot(g.at.Keys, s0, k, b, KeyOf(c));
    } else {
      SpliceOthers(g.at.Keys, s0, k, s, KeyOf(Deref(g, s)));
    }
  }

  lemma SplicedKeepsShape(g: Graph, g': Graph, k: Key, b: bool)
    requires Shape(g) && k in g.at && ParentOK(g, k) && Spliced(g, g', k, b)
    requires g.cells[k].child.At(!b) == null
    ensures Shape(g')
  {
    forall s | IsSlot(g'.at.Keys, s) ensures SlotOK(g', s) {
      SplicedSlot(g, g', k, b, s);
    }
    forall m | m in g'.at ensures ParentOK(g', m) {
      assert ParentOK(g, m);
    }
  }

  ghost predicate Owns(g: Graph, p: Peer, n: TrieEntry)
    requires Typed(g)
  {
    Holds(g, n) && g.cells[n.key].peer == p
  }

  /** Every peer's list names that peer's nodes, each once.  Between the creation of a node
      and its linking, `extra` is already in the list of `peer` but not yet in the trie. */
  ghost predicate ListsOK(g: Graph, lists: map<Peer, seq<TrieEntry>>, extra: TrieEntry?, peer: Peer?)
    requires Typed(g)
  {
    && (forall p | p in lists :: NoDuplicates(lists[p]))
    && (forall p, n | p in lists && n in lists[p] :: Owns(g, p, n) || (n == extra && p == peer))
    && (extra != null ==> peer != null && peer in lists && extra in lists[peer])
    && (forall k | k in g.at && g.cells[k].peer != null ::
         g.cells[k].peer in lists && g.at[k] in lists[g.cells[k].peer])
    && (forall k | k in g.at :: g.cells[k].perPeerElem <==> g.cells[k].peer != null)
  }

  /** Linking the pending node n (and perhaps a node without a peer) settles the lists. */
  lemma GrownKeepsLists(g: Graph, g': Graph, s0: Slot, added: set<Key>, n: TrieEntry, peer: Peer,
                        lists: map<Peer, seq<TrieEntry>>)
    requires Typed(g) && IsSlot(g.at.Keys, s0) && Grown(g, g', s0, added)
    requires n.key in added && n.key !in g.at && ListsOK(g, lists, n, peer)
    requires g'.at[n.key] == n && g'.cells[n.key].peer == peer && g'.cells[n.key].perPeerElem
    requires forall k | k in added && k != n.key :: k !in g.at && g'.cells[k].peer == null && !g'.cells[k].perPeerElem
    ensures ListsOK(g', lists, null, null)
  {
    forall p, m | p in lists && m in lists[p] ensures Owns(g', p, m) {
      assert Owns(g, p, m) || m == n;
    }
  }

  lemma GrownContents(g: Graph, g': Graph, s0: Slot, added: set<Key>, q: Key, peer: Peer)
    requires Typed(g) && IsSlot(g.at.Keys, s0) && Grown(g, g', s0, added)
    requires q in added && q !in g.at && g'.cells[q].peer == peer
    requires forall k | k in added && k != q :: g'.cells[k].peer == null && k !in g.at
    ensures Contents(g') == Contents(g)[q := peer]
  {
  }

  /** list.Remove: the list s without the element for n. */
  function Without(s: seq<TrieEntry>, n: TrieEntry): (r: seq<TrieEntry>)
    ensures forall x | x in s :: x == n || x in r
    ensures forall x | x in r :: x in s && x != n
    ensures NoDuplicates(s) ==> NoDuplicates(r)
    ensures |r| <= |s| && (n in s ==> |r| < |s|)
  {
    if s == [] then []
    else
      var r := Without(s[1..], n);
      assert forall x | x in s :: x == s[0] || x in s[1..];
      assert NoDuplicates(s) ==> NoDuplicates(s[1..]) && s[0] !in s[1..] by {
        if NoDuplicates(s) {
          assert forall i | 0 <= i < |s[1..]| :: s[1..][i] == s[i + 1];
        }
      }
      if s[0] == n then r else [s[0]] + r
  }

  /** g' is g with node k given to p (to nobody if p is null). */
  ghost predicate Repeered(g: Graph, g': Graph, k: Key, p: Peer?)
    requires Typed(g) && k in g.at
  {
    && g'.roots == g.roots && g'.at == g.at && g'.cells.Keys == g.at.Keys
    && (forall m | m in g.at && m != k :: g'.cells[m] == g.cells[m])
    && g'.cells[k] == g.cells[k].(peer := p, perPeerElem := p != null)
  }

  lemma RepeeredKeepsShape(g: Graph, g': Graph, k: Key, p: Peer?)
    requires Shape(g) && k in g.at && Repeered(g, g', k, p)
    ensures Shape(g')
  {
    forall s | IsSlot(g'.at.Keys, s) ensures SlotOK(g', s) {
      assert SlotOK(g, s);
    }
    forall m | m in g'.at ensures ParentOK(g', m) {
      assert ParentOK(g, m);
    }
  }

  lemma GivenContents(g: Graph, g': Graph, k: Key, p: Peer)
    requires Typed(g) && k in g.at && Repeered(g, g', k, p)
    ensures Contents(g') == Contents(g)[k := p]
  {
  }

  lemma TakenContents(g: Graph, g': Graph, k: Key)
    requires Typed(g) && k in g.at && Repeered(g, g', k, null)
    ensures Contents(g') == Contents(g) - {k}
  {
  }

  function ListFor(lists: map<Peer, seq<TrieEntry>>, p: Peer): seq<TrieEntry> {
    if p in lists then lists[p] else []
  }

  /** The lists after removeFromPeerEntries and after addToPeerEntries. */
  function Unlist(lists: map<Peer, seq<TrieEntry>>, n: TrieEntry, p: Peer?): map<Peer, seq<TrieEntry>> {
    if p != null && p in lists then lists[p := Without(lists[p], n)] else lists
  }

  function Enlist(lists: map<Peer, seq<TrieEntry>>, n: TrieEntry, p: Peer): map<Peer, seq<TrieEntry>> {
    lists[p := ListFor(lists, p) + [n]]
  }

  lemma UnlistKeeps(g: Graph, g': Graph, k: Key, lists: map<Peer, seq<TrieEntry>>)
    requires Typed(g) && k in g.at && Repeered(g, g', k, null)
    requires ListsOK(g, lists, null, null)
    ensures Typed(g') && ListsOK(g', Unlist(lists, g.at[k], g.cells[k].peer), null, null)
  {
    var l := Unlist(lists, g.at[k], g.cells[k].peer);
    forall q, m | q in l && m in l[q] ensures Owns(g', q, m) {
      assert Owns(g, q, m);
    }
  }

  lemma EnlistKeeps(g: Graph, g': Graph, k: Key, p: Peer, lists: map<Peer, seq<TrieEntry>>)
    requires Typed(g) && k in g.at && Repeered(g, g', k, p) && g.cells[k].peer == null
    requires ListsOK(g, lists, null, null)
    ensures Typed(g') && ListsOK(g', Enlist(lists, g.at[k], p), null, null)
  {
    var n, l := g.at[k], Enlist(lists, g.at[k], p);
    assert n in ListFor(lists, p) ==> Owns(g, p, n);
    assert NoDuplicates(l[p]);
    forall q, m | q in l && m in l[q] ensures Owns(g', q, m) {
      assert q in lists && m in lists[q] ==> Owns(g, q, m);
    }
  }

  /** A new node of p that is not in the trie yet goes into p's list first. */
  lemma AppendPending(g: Graph, lists: map<Peer, seq<TrieEntry>>, n: TrieEntry, p: Peer)
    requires Typed(g) && ListsOK(g, lists, null, null) && !Holds(g, n)
    ensures ListsOK(g, Enlist(lists, n, p), n, p)
  {
    assert n in ListFor(lists, p) ==> Owns(g, p, n);
    var l := Enlist(lists, n, p);
    assert NoDuplicates(l[p]);
  }

  /** Only the owner of the emptied slot can be left with too few children. */
  ghost function Exposed(c: Cell, b: bool): set<Key> {
    if c.child.At(b) == null && c.parent.Child? then {c.parent.owner.key} else {}
  }

  lemma SplicedKeepsFull(g: Graph, g': Graph, k: Key, b: bool)
    requires Shape(g) && k in g.at && ParentOK(g, k) && Spliced(g, g', k, b) && Full(g, {k})
    ensures Full(g', Exposed(g.cells[k], b))
    ensures var s := g.cells[k].parent;
      s.Child? && s.owner.key in g'.at && g'.cells[s.owner.key].peer == null ==>
        g'.cells[s.owner.key].child.At(!s.bit) != null
  {
    var s := g.cells[k].parent;
    forall m | m in g'.at && m !in Exposed(g.cells[k], b) ensures FullCell(g'.cells[m]) {
      assert FullCell(g.cells[m]);
      assert Deref(g', Sub(m, false)) == g'.cells[m].child.zero && Deref(g', Sub(m, true)) == g'.cells[m].child.one;
    }
    if s.Child? && s.owner.key in g'.at {
      assert FullCell(g.cells[s.owner.key]);
      assert Deref(g', Sub(s.owner.key, !s.bit)) == Deref(g, Sub(s.owner.key, !s.bit));
    }
  }

  lemma SplicedKeepsLists(g: Graph, g': Graph, k: Key, b: bool, lists: map<Peer, seq<TrieEntry>>)
    requires Shape(g) && k in g.at && ParentOK(g, k) && Spliced(g, g', k, b)
    requires g.cells[k].peer == null && ListsOK(g, lists, null, null)
    ensures ListsOK(g', lists, null, null)
  {
    forall p, n | p in lists && n in lists[p] ensures Owns(g', p, n) {
      assert Owns(g, p, n);
    }
  }

  lemma SplicedContents(g: Graph, g': Graph, k: Key, b: bool)
    requires Shape(g) && k in g.at && ParentOK(g, k) && Spliced(g, g', k, b) && g.cells[k].peer == null
    ensures Contents(g') == Contents(g)
  {
  }
}
