/** Whole histories of an allowed-IPs table, and the plain map they are compared with. */
module AllowedIPsRuns {
  import opened PrefixSets
  import opened TrieGraph
  import opened AllowedIPsTable

  datatype Op =
    | InsertOp(ip: seq<bool>, cidr: nat, peer: Peer)
    | RemoveOp(ip: seq<bool>, cidr: nat, owner: Peer?)
    | RemovePeerOp(gone: Peer)

  predicate ValidOp(op: Op) {
    !op.RemovePeerOp? ==> op.cidr <= |op.ip| && (|op.ip| == 32 || |op.ip| == 128)
  }

  /** What an operation means for a plain map from prefixes to peers. */
  ghost function Apply(m: map<Key, Peer>, op: Op): map<Key, Peer>
    requires ValidOp(op)
  {
    match op
    case InsertOp(ip, cidr, peer) => m[PrefixKey(ip, cidr) := peer]
    case RemoveOp(ip, cidr, owner) =>
      var k := PrefixKey(ip, cidr);
      if k in m && m[k] == owner then m - {k} else m
    case RemovePeerOp(gone) => map k | k in m && m[k] != gone :: m[k]
  }

  ghost function ApplyAll(m: map<Key, Peer>, ops: seq<Op>): map<Key, Peer>
    requires forall op | op in ops :: ValidOp(op)
  {
    if ops == [] then m else Apply(ApplyAll(m, ops[..|ops| - 1]), ops[|ops| - 1])
  }

  /** After every sequence of operations the table is the plain map. */
  method Run(ops: seq<Op>) returns (t: AllowedIPs)
    requires forall op | op in ops :: ValidOp(op)
    ensures fresh(t) && t.Valid()
    ensures t.Routes() == ApplyAll(map[], ops)
  {
    t := new AllowedIPs();
    hide AllowedIPs.Valid, AllowedIPs.Routes;
    for i := 0 to |ops|
      invariant fresh(t) && fresh(t.nodes) && t.Valid()
      invariant t.Routes() == ApplyAll(map[], ops[..i])
    {
      assert ops[..i + 1][..i] == ops[..i];
      assert ValidOp(ops[i]);
      match ops[i] {
        case InsertOp(ip, cidr, peer) => t.Insert(ip, cidr, peer);
        case RemoveOp(ip, cidr, owner) => t.Remove(ip, cidr, owner);
        case RemovePeerOp(gone) => t.RemoveByPeer(gone);
      }
    }
    assert ops[..|ops|] == ops;
  }

  /** The longest-prefix match of an address is unique, so it is the answer of Lookup. */
  lemma MatchIsUnique(m: map<Key, Peer>, a: Key, found: Peer?, found': Peer?)
    requires IsMatch(m, a, found) && IsMatch(m, a, found')
    ensures found == found'
  {
    if found != null && found' != null {
      var k :| LongestMatch(m, a, k) && m[k] == found;
      var k' :| LongestMatch(m, a, k') && m[k'] == found';
      assert k == a[..|k|] == k';
    }
  }
}
