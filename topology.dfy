/**
 * Storage nodes and the node-id to address map that both the client API and
 * the configuration coordinator build when they load a replication config.
 */
module Topology {

  datatype StorageNode = StorageNode(id: string, address: string)

  /** The map the loading loop builds by assigning nodes in order: a later node with the same id wins. */
  function AddressBook(nodes: seq<StorageNode>): map<string, string> {
    if nodes == [] then map[]
    else AddressBook(nodes[..|nodes| - 1])[nodes[|nodes| - 1].id := nodes[|nodes| - 1].address]
  }

  /** An id is known iff some node carries it, and it maps to the address of the last such node. */
  lemma {:induction false} AddressBookLookup(nodes: seq<StorageNode>, id: string)
    ensures id in AddressBook(nodes) <==> exists k :: 0 <= k < |nodes| && nodes[k].id == id
    ensures id in AddressBook(nodes) ==>
      exists k :: 0 <= k < |nodes| && nodes[k].id == id && AddressBook(nodes)[id] == nodes[k].address
        && forall j :: k < j < |nodes| ==> nodes[j].id != id
  {
    if nodes != [] {
      var p := nodes[..|nodes| - 1];
      AddressBookLookup(p, id);
      if nodes[|nodes| - 1].id != id && id in AddressBook(p) {
        var k :| 0 <= k < |p| && p[k].id == id && AddressBook(p)[id] == p[k].address
          && forall j :: k < j < |p| ==> p[j].id != id;
        assert nodes[k] == p[k];
      }
      if id !in AddressBook(nodes) {
        assert forall k :: 0 <= k < |p| ==> nodes[k] == p[k];
      }
    }
  }

  /** Every id resolved through the node table, in order. */
  predicate Resolved(book: map<string, string>, ids: seq<string>, addrs: seq<string>) {
    |addrs| == |ids| && forall j :: 0 <= j < |ids| ==> ids[j] in book && addrs[j] == book[ids[j]]
  }

  /** The loop `for _, node := range nodes { m[node.Id] = node.Address }`. */
  method BuildAddressBook(nodes: seq<StorageNode>) returns (book: map<string, string>)
    ensures book == AddressBook(nodes)
  {
    book := map[];
    for i := 0 to |nodes|
      invariant book == AddressBook(nodes[..i])
    {
      assert nodes[..i + 1][..i] == nodes[..i];
      book := book[nodes[i].id := nodes[i].address];
    }
    assert nodes[..|nodes|] == nodes;
  }
}
