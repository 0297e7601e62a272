/**
  The app_installations table (internal/store/installations.go). The schema
  makes (node_id, app_id) unique and removes a node's records with the node.
*/
module Installations {
  import opened TaskTable
  import opened Wrappers

  datatype Health = Installed | Errored

  datatype Record = Record(node: nat, app: string, how: Method, health: Health)

  predicate Matches(r: Record, node: nat, app: string) {
    r.node == node && r.app == app
  }

  predicate Has(recs: seq<Record>, node: nat, app: string) {
    exists i :: 0 <= i < |recs| && Matches(recs[i], node, app)
  }

  /** At most one record per (node, app). */
  predicate Unique(recs: seq<Record>) {
    forall i, j :: 0 <= i < j < |recs| ==> !Matches(recs[j], recs[i].node, recs[i].app)
  }

  predicate OnNodes(recs: seq<Record>, nodes: set<nat>) {
    forall i :: 0 <= i < |recs| ==> recs[i].node in nodes
  }

  function Without(recs: seq<Record>, node: nat, app: string): seq<Record> {
    if recs == [] then []
    else (if Matches(recs[0], node, app) then [] else [recs[0]]) + Without(recs[1..], node, app)
  }

  function WithoutNode(recs: seq<Record>, node: nat): seq<Record> {
    if recs == [] then []
    else (if recs[0].node == node then [] else [recs[0]]) + WithoutNode(recs[1..], node)
  }

  lemma {:induction false} WithoutExact(recs: seq<Record>, node: nat, app: string)
    ensures forall r :: r in Without(recs, node, app) <==> r in recs && !Matches(r, node, app)
    ensures Unique(recs) ==> Unique(Without(recs, node, app))
  {
    if recs != [] {
      WithoutExact(recs[1..], node, app);
      TailUnique(recs, Without(recs[1..], node, app));
    }
  }

  lemma {:induction false} WithoutNodeExact(recs: seq<Record>, node: nat)
    ensures forall r :: r in WithoutNode(recs, node) <==> r in recs && r.node != node
    ensures Unique(recs) ==> Unique(WithoutNode(recs, node))
  {
    if recs != [] {
      WithoutNodeExact(recs[1..], node);
      TailUnique(recs, WithoutNode(recs[1..], node));
    }
  }

  lemma TailUnique(recs: seq<Record>, kept: seq<Record>)
    requires recs != [] && forall r :: r in kept ==> r in recs[1..]
    requires Unique(recs[1..]) ==> Unique(kept)
    ensures Unique(recs) ==> Unique(kept) && Unique([recs[0]] + kept)
  {
    if Unique(recs) {
      assert forall i :: 0 <= i < |recs[1..]| ==> recs[1..][i] == recs[i + 1];
      assert Unique(recs[1..]);
      forall j | 0 <= j < |kept|
        ensures !Matches(kept[j], recs[0].node, recs[0].app)
      {
        assert kept[j] in recs[1..];
      }
    }
  }

  lemma HasMembers(recs: seq<Record>, node: nat, app: string)
    ensures Has(recs, node, app) <==> exists r :: r in recs && Matches(r, node, app)
  {
  }

  lemma HasAfterDelete(recs: seq<Record>, node: nat, app: string, n: nat, a: string)
    ensures Has(Without(recs, node, app), n, a) <==> Has(recs, n, a) && !(n == node && a == app)
    ensures Has(WithoutNode(recs, node), n, a) <==> Has(recs, n, a) && n != node
  {
    WithoutExact(recs, node, app);
    WithoutNodeExact(recs, node);
    HasMembers(recs, n, a);
    HasMembers(Without(recs, node, app), n, a);
    HasMembers(WithoutNode(recs, node), n, a);
  }

  lemma HasAfterInsert(recs: seq<Record>, r: Record, n: nat, a: string)
    ensures Has(recs + [r], n, a) <==> Has(recs, n, a) || Matches(r, n, a)
    ensures Unique(recs) && !Has(recs, r.node, r.app) ==> Unique(recs + [r])
  {
    var more := recs + [r];
    assert more[|recs|] == r && forall i :: 0 <= i < |recs| ==> more[i] == recs[i];
    if Has(recs, n, a) {
      var i :| 0 <= i < |recs| && Matches(recs[i], n, a);
      assert Matches(more[i], n, a);
    }
    if Matches(r, n, a) {
      assert Matches(more[|recs|], n, a);
    }
  }

  class InstallTable {
    var recs: seq<Record>
    var nodes: set<nat>

    constructor ()
      ensures recs == [] && nodes == {}
    {
      recs, nodes := [], {};
    }

    method GetInstallation(node: nat, app: string) returns (r: Option<Record>)
      ensures r.Some? <==> Has(recs, node, app)
      ensures r.Some? ==> r.value in recs && Matches(r.value, node, app)
    {
      var i := 0;
      while i < |recs|
        invariant 0 <= i <= |recs|
        invariant forall j :: 0 <= j < i ==> !Matches(recs[j], node, app)
      {
        if Matches(recs[i], node, app) {
          return Some(recs[i]);
        }
        i := i + 1;
      }
      r := None;
    }

    /** Fails on a missing node (foreign key) and on an existing record (UNIQUE). */
    method CreateInstallation(r: Record) returns (ok: bool)
      modifies this
      ensures ok <==> r.node in old(nodes) && !Has(old(recs), r.node, r.app)
      ensures recs == if ok then old(recs) + [r] else old(recs)
      ensures nodes == old(nodes)
      ensures old(Unique(recs)) ==> Unique(recs)
    {
      HasAfterInsert(recs, r, r.node, r.app);
      var existing := GetInstallation(r.node, r.app);
      ok := r.node in nodes && existing.None?;
      if ok {
        recs := recs + [r];
      }
    }

    method UpsertInstallation(r: Record) returns (ok: bool)
      modifies this
      ensures ok <==> Has(old(recs), r.node, r.app) || r.node in old(nodes)
      ensures recs == if Has(old(recs), r.node, r.app) || !ok then old(recs) else old(recs) + [r]
      ensures nodes == old(nodes)
      ensures ok ==> Has(recs, r.node, r.app)
    {
      HasAfterInsert(recs, r, r.node, r.app);
      var existing := GetInstallation(r.node, r.app);
      if existing.Some? {
        return true;
      }
      ok := CreateInstallation(r);
    }

    method DeleteInstallation(node: nat, app: string)
      modifies this
      ensures recs == Without(old(recs), node, app) && nodes == old(nodes)
      ensures !Has(recs, node, app)
    {
      HasAfterDelete(recs, node, app, node, app);
      var kept := [];
      var i := |recs|;
      while i > 0
        invariant 0 <= i <= |recs|
        invariant kept == Without(recs[i..], node, app)
      {
        i := i - 1;
        assert recs[i..][1..] == recs[i + 1..];
        if !Matches(recs[i], node, app) {
          kept := [recs[i]] + kept;
        }
      }
      assert recs[0..] == recs;
      recs := kept;
    }
  }
}
