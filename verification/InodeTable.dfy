/** The table of open inodes of all mounts (fs/inode.c): objects on hash chains, each counting its
    holders and keeping its mount in use. */
module InodeTable {

  import opened Options

  type MountId = nat
  type NodeId = nat

  const HASH_SIZE: nat := 1024

  datatype Key = Key(mount: MountId, number: nat)

  datatype Node = Node(key: Key, refcount: nat)

  type Nodes = map<NodeId, Node>
  type Chains = seq<seq<NodeId>>
  type Counts = map<Key, nat>

  function Bucket(k: Key): (i: nat)
    ensures i < HASH_SIZE
  {
    k.number % HASH_SIZE
  }

  // What the objects stand for: how often each inode is held

  ghost predicate NodeMeans(nodes: Nodes, open: Counts, id: NodeId) {
    id in nodes ==> nodes[id].key in open && open[nodes[id].key] == nodes[id].refcount && nodes[id].refcount > 0
  }

  ghost predicate Unique(nodes: Nodes) { forall a, b :: a in nodes && b in nodes && nodes[a].key == nodes[b].key ==> a == b }

  ghost predicate Has(nodes: Nodes, k: Key) { exists id :: id in nodes && nodes[id].key == k }

  ghost predicate Means(nodes: Nodes, open: Counts) {
    Unique(nodes) && (forall id :: NodeMeans(nodes, open, id)) && forall k :: k in open ==> Has(nodes, k)
  }

  /** Every inode is on the chain of its number, and the chains hold nothing else. */
  ghost predicate Chained(chains: Chains, nodes: Nodes) {
    && |chains| == HASH_SIZE
    && (forall id :: id in nodes ==> id in chains[Bucket(nodes[id].key)])
    && (forall i, id :: 0 <= i < HASH_SIZE && id in chains[i] ==> id in nodes && Bucket(nodes[id].key) == i)
  }

  ghost function Of(nodes: Nodes, m: MountId): set<NodeId> { set id | id in nodes && nodes[id].key.mount == m }

  ghost predicate MountCounted(nodes: Nodes, retained: map<MountId, nat>, m: MountId) {
    |Of(nodes, m)| == if m in retained then retained[m] else 0
  }

  /** A mount is in use once for each of its inodes. */
  ghost predicate MountsCounted(nodes: Nodes, retained: map<MountId, nat>) { forall m :: MountCounted(nodes, retained, m) }

  function Retained(open: Counts, k: Key): Counts { open[k := if k in open then open[k] + 1 else 1] }

  function Released(open: Counts, k: Key): Counts
    requires k in open
  {
    if open[k] <= 1 then open - {k} else open[k := open[k] - 1]
  }

  function Without(s: seq<NodeId>, id: NodeId): (r: seq<NodeId>)
    ensures forall x :: x in r <==> x in s && x != id
  {
    if s == [] then [] else if s[0] == id then Without(s[1..], id) else [s[0]] + Without(s[1..], id)
  }

  function CountOf(retained: map<MountId, nat>, m: MountId): nat { if m in retained then retained[m] else 0 }

  // One object changes

  lemma RecountMeans(nodes: Nodes, open: Counts, id: NodeId, n: nat)
    requires Means(nodes, open) && id in nodes && n > 0
    ensures Means(nodes[id := nodes[id].(refcount := n)], open[nodes[id].key := n])
  {
    var nodes', k := nodes[id := nodes[id].(refcount := n)], nodes[id].key;
    var open' := open[k := n];
    assert NodeMeans(nodes, open, id);
    forall x ensures NodeMeans(nodes', open', x) { assert NodeMeans(nodes, open, x); }
    forall y | y in open' ensures Has(nodes', y) {
      var x :| x in nodes && nodes[x].key == y;
      assert nodes'[x].key == y;
    }
  }

  lemma AddMeans(nodes: Nodes, open: Counts, id: NodeId, k: Key)
    requires Means(nodes, open) && id !in nodes && k !in open
    ensures Means(nodes[id := Node(k, 1)], open[k := 1])
  {
    var nodes', open' := nodes[id := Node(k, 1)], open[k := 1];
    forall x ensures NodeMeans(nodes', open', x) { assert NodeMeans(nodes, open, x); }
    forall a, b | a in nodes' && b in nodes' && nodes'[a].key == nodes'[b].key ensures a == b {
      assert NodeMeans(nodes, open, a) && NodeMeans(nodes, open, b);
    }
    forall y | y in open' ensures Has(nodes', y) {
      if y == k {
        assert nodes'[id].key == y;
      } else {
        var x :| x in nodes && nodes[x].key == y;
        assert nodes'[x].key == y;
      }
    }
  }

  lemma DropMeans(nodes: Nodes, open: Counts, id: NodeId)
    requires Means(nodes, open) && id in nodes
    ensures Means(nodes - {id}, open - {nodes[id].key})
  {
    var nodes', open' := nodes - {id}, open - {nodes[id].key};
    forall x ensures NodeMeans(nodes', open', x) { assert NodeMeans(nodes, open, x); }
    forall y | y in open' ensures Has(nodes', y) {
      var x :| x in nodes && nodes[x].key == y;
      assert x in nodes' && nodes'[x].key == y;
    }
  }

  lemma ChainAdd(chains: Chains, nodes: Nodes, id: NodeId, n: Node)
    requires Chained(chains, nodes) && id !in nodes
    ensures Chained(chains[Bucket(n.key) := [id] + chains[Bucket(n.key)]], nodes[id := n])
  {
    hide Bucket;
  }

  lemma ChainDrop(chains: Chains, nodes: Nodes, id: NodeId)
    requires Chained(chains, nodes) && id in nodes
    ensures Chained(chains[Bucket(nodes[id].key) := Without(chains[Bucket(nodes[id].key)], id)], nodes - {id})
  {
    hide Bucket;
  }

  lemma ChainRecount(chains: Chains, nodes: Nodes, id: NodeId, n: nat)
    requires Chained(chains, nodes) && id in nodes
    ensures Chained(chains, nodes[id := nodes[id].(refcount := n)])
  {
    hide Bucket;
  }

  lemma MountsRecount(nodes: Nodes, retained: map<MountId, nat>, id: NodeId, n: nat)
    requires MountsCounted(nodes, retained) && id in nodes
    ensures MountsCounted(nodes[id := nodes[id].(refcount := n)], retained)
  {
    var nodes' := nodes[id := nodes[id].(refcount := n)];
    forall m ensures MountCounted(nodes', retained, m) {
      assert MountCounted(nodes, retained, m);
      assert Of(nodes', m) == Of(nodes, m);
    }
  }

  lemma MountsAdd(nodes: Nodes, retained: map<MountId, nat>, id: NodeId, n: Node)
    requires MountsCounted(nodes, retained) && id !in nodes
    ensures MountsCounted(nodes[id := n], retained[n.key.mount := CountOf(retained, n.key.mount) + 1])
  {
    var nodes', retained' := nodes[id := n], retained[n.key.mount := CountOf(retained, n.key.mount) + 1];
    forall m ensures MountCounted(nodes', retained', m) {
      assert MountCounted(nodes, retained, m);
      if m == n.key.mount { assert Of(nodes', m) == Of(nodes, m) + {id}; } else { assert Of(nodes', m) == Of(nodes, m); }
    }
  }

  lemma MountsDrop(nodes: Nodes, retained: map<MountId, nat>, id: NodeId)
    requires MountsCounted(nodes, retained) && id in nodes
    ensures var m := nodes[id].key.mount;
            CountOf(retained, m) > 0 && MountsCounted(nodes - {id}, retained[m := CountOf(retained, m) - 1])
  {
    var k := nodes[id].key.mount;
    assert MountCounted(nodes, retained, k) && id in Of(nodes, k);
    var nodes', retained' := nodes - {id}, retained[k := CountOf(retained, k) - 1];
    forall m ensures MountCounted(nodes', retained', m) {
      assert MountCounted(nodes, retained, m);
      if m == k { assert Of(nodes, m) == Of(nodes', m) + {id}; } else { assert Of(nodes', m) == Of(nodes, m); }
    }
  }

  class Inodes {
    var nodes: Nodes
    var chains: Chains
    var retained: map<MountId, nat>
    var nextId: NodeId
    ghost var open: Counts

    ghost predicate Valid()
      reads this
    {
      && Means(nodes, open) && Chained(chains, nodes) && MountsCounted(nodes, retained)
      && (forall id :: id in nodes ==> id < nextId)
    }

    constructor ()
      ensures Valid() && open == map[]
    {
      nodes, retained, nextId, open := map[], map[], 0, map[];
      chains := seq(HASH_SIZE, _ => []);
      new;
      forall m ensures MountCounted(nodes, retained, m) { assert Of(nodes, m) == {}; }
    }

    /** inode_get_data: the inode on its chain, if it is held by anybody. */
    method GetData(k: Key) returns (r: Option<NodeId>)
      requires Valid()
      ensures r.Some? <==> k in open
      ensures r.Some? ==> r.value in nodes && nodes[r.value] == Node(k, open[k])
    {
      hide Means, Bucket, MountsCounted;
      var chain, i := chains[Bucket(k)], 0;
      while i < |chain|
        invariant 0 <= i <= |chain|
        invariant forall j :: 0 <= j < i ==> chain[j] in nodes && nodes[chain[j]].key != k
      {
        assert chain[i] in chains[Bucket(k)];
        if nodes[chain[i]].key == k {
          Found(nodes, open, chain[i]);
          return Some(chain[i]);
        }
        i := i + 1;
      }
      NotThere(chains, nodes, open, k);
      r := None;
    }

    /** inode_get_unlocked with inode_retain: the one object of an inode, made when there is none,
        with one more holder. A new one keeps its mount in use. */
    method GetUnlocked(k: Key) returns (id: NodeId)
      requires Valid()
      modifies this
      ensures Valid() && open == Retained(old(open), k) && id in nodes && nodes[id].key == k
      ensures forall x :: x in old(nodes) ==> x in nodes && nodes[x].key == old(nodes)[x].key
      ensures retained == if k in old(open) then old(retained) else old(retained)[k.mount := CountOf(old(retained), k.mount) + 1]
    {
      hide Means, Chained, Bucket, MountsCounted;
      ghost var before := open;
      var data := GetData(k);
      if data.None? {
        id := nextId;
        AddMeans(nodes, open, id, k);
        ChainAdd(chains, nodes, id, Node(k, 1));
        MountsAdd(nodes, retained, id, Node(k, 1));
        retained := retained[k.mount := CountOf(retained, k.mount) + 1];
        ChainsFormed(chains, nodes);
        chains := chains[Bucket(k) := [id] + chains[Bucket(k)]];
        nodes, open := nodes[id := Node(k, 1)], open[k := 1];
        nextId := nextId + 1;
      } else {
        id := data.value;
        Recount(id, nodes[id].refcount + 1);
      }
    }

    /** The count of an object changes. */
    method Recount(id: NodeId, n: nat)
      requires Valid() && id in nodes && n > 0
      modifies `nodes, `open
      ensures Valid() && nodes == old(nodes)[id := old(nodes)[id].(refcount := n)] && open == old(open)[nodes[id].key := n]
    {
      hide Means, Chained, Bucket, MountsCounted;
      RecountMeans(nodes, open, id, n);
      ChainRecount(chains, nodes, id, n);
      MountsRecount(nodes, retained, id, n);
      open := open[nodes[id].key := n];
      nodes := nodes[id := nodes[id].(refcount := n)];
    }

    /** inode_release: one holder less. The last one takes the inode off its chain and lets go of
        the mount, and the file system hears that the inode is held no more. */
    method Release(id: NodeId) returns (last: bool)
      requires Valid() && id in nodes
      modifies this
      ensures Valid() && old(nodes)[id].key in old(open) && open == Released(old(open), old(nodes)[id].key)
      ensures last <==> old(nodes)[id].key !in open
      ensures forall x :: x in nodes <==> x in old(nodes) && (last ==> x != id)
      ensures forall x :: x in nodes ==> nodes[x].key == old(nodes)[x].key
      ensures var m := old(nodes)[id].key.mount; CountOf(retained, m) == CountOf(old(retained), m) - if last then 1 else 0
    {
      hide Means, Chained, Bucket, MountsCounted;
      Found(nodes, open, id);
      var n := nodes[id].refcount - 1;
      if n > 0 {
        Recount(id, n);
        return false;
      }
      var k := nodes[id].key;
      DropMeans(nodes, open, id);
      ChainDrop(chains, nodes, id);
      MountsDrop(nodes, retained, id);
      ChainsFormed(chains, nodes);
      retained := retained[k.mount := CountOf(retained, k.mount) - 1];
      chains := chains[Bucket(k) := Without(chains[Bucket(k)], id)];
      nodes, open := nodes - {id}, open - {k};
      last := true;
    }
  }

  lemma Found(nodes: Nodes, open: Counts, id: NodeId)
    requires Means(nodes, open) && id in nodes
    ensures nodes[id].key in open && open[nodes[id].key] == nodes[id].refcount && nodes[id].refcount > 0
  {
    assert NodeMeans(nodes, open, id);
  }

  lemma NotThere(chains: Chains, nodes: Nodes, open: Counts, k: Key)
    requires Chained(chains, nodes) && Means(nodes, open)
    requires forall j :: 0 <= j < |chains[Bucket(k)]| ==> chains[Bucket(k)][j] in nodes && nodes[chains[Bucket(k)][j]].key != k
    ensures k !in open
  {
    hide Bucket;
    assert !Has(nodes, k);
  }

  lemma ChainsFormed(chains: Chains, nodes: Nodes)
    requires Chained(chains, nodes)
    ensures |chains| == HASH_SIZE
  {
  }
}
