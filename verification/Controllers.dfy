/** Session numbers, node numbers and the routing of acknowledgements to replicas (`Controller`). */
module Controllers {
  import opened Packets

  /** A joined multicast group, with its node number and the names of its replicas. */
  datatype Group = Group(name: string, groupId: nat, replicas: seq<string>)

  /** Where a replica was found: the group's place in the iteration, and its index there. */
  datatype Place = Place(group: nat, index: nat)

  /** The first place at which a name occurs, searching from replica `i` of group `g` on. */
  function Find(groups: seq<Group>, name: string, g: nat, i: nat): (p: Option<Place>)
    requires g <= |groups| && (g < |groups| ==> i <= |groups[g].replicas|)
    ensures p.Some? ==> OccursAt(groups, name, p.value)
    decreases |groups| - g, if g < |groups| then |groups[g].replicas| - i else 0
  {
    if g == |groups| then None
    else if i == |groups[g].replicas| then Find(groups, name, g + 1, 0)
    else if groups[g].replicas[i] == name then Some(Place(g, i))
    else Find(groups, name, g, i + 1)
  }

  predicate OccursAt(groups: seq<Group>, name: string, p: Place) {
    p.group < |groups| && p.index < |groups[p.group].replicas| && groups[p.group].replicas[p.index] == name
  }

  predicate Before(p: Place, q: Place) {
    p.group < q.group || (p.group == q.group && p.index < q.index)
  }

  /** The iteration misses no occurrence and finds none after another. */
  lemma {:induction false} FindComplete(groups: seq<Group>, name: string, g: nat, i: nat)
    requires g <= |groups| && (g < |groups| ==> i <= |groups[g].replicas|)
    ensures forall p :: OccursAt(groups, name, p) && !Before(p, Place(g, i)) ==>
              Find(groups, name, g, i).Some? && !Before(p, Find(groups, name, g, i).value)
    decreases |groups| - g, if g < |groups| then |groups[g].replicas| - i else 0
  {
    if g < |groups| {
      if i == |groups[g].replicas| {
        FindComplete(groups, name, g + 1, 0);
        assert forall p :: OccursAt(groups, name, p) && !Before(p, Place(g, i)) ==> !Before(p, Place(g + 1, 0));
      } else if groups[g].replicas[i] != name {
        FindComplete(groups, name, g, i + 1);
        assert forall p :: OccursAt(groups, name, p) && !Before(p, Place(g, i)) ==> !Before(p, Place(g, i + 1));
      }
    }
  }

  /** A place is the one found if and only if the name occurs there and nowhere earlier in the iteration. */
  lemma FindIff(groups: seq<Group>, name: string, p: Place)
    ensures Find(groups, name, 0, 0) == Some(p) <==>
            OccursAt(groups, name, p) && forall q :: OccursAt(groups, name, q) ==> !Before(q, p)
  {
    FindComplete(groups, name, 0, 0);
    forall q | OccursAt(groups, name, q) ensures !Before(q, Place(0, 0)) {}
  }

  /**
   A replica listed in exactly one group, once, is found there, in whatever order the
   unordered map yields the groups.
   */
  lemma FindUnique(groups: seq<Group>, name: string, p: Place)
    requires OccursAt(groups, name, p) && forall q :: OccursAt(groups, name, q) ==> q == p
    ensures Find(groups, name, 0, 0) == Some(p)
  {
    FindIff(groups, name, p);
  }

  /** A replica listed in two groups moves a tail of the earlier one, even for the later group's packets. */
  lemma SharedReplicaExample(name: string)
    ensures var groups := [Group("a", 0, [name]), Group("b", 1, ["other", name])];
            OccursAt(groups, name, Place(1, 1)) && Find(groups, name, 0, 0) == Some(Place(0, 0))
  {}

  class Controller {
    var nextNodeId: nat
    var nodeIds: map<(nat, nat), nat>
    var peerNames: map<string, nat>
    var peerNamesRev: map<nat, string>
    var groups: seq<Group>

    /** Names and numbers agree, and every number in use is below the next one. */
    ghost predicate Valid()
      reads this
    {
      && (forall n :: n in peerNames ==> peerNames[n] in peerNamesRev && peerNamesRev[peerNames[n]] == n)
      && (forall id :: id in peerNamesRev ==> id < nextNodeId)
      && (forall a :: a in nodeIds ==> nodeIds[a] in peerNamesRev)
    }

    constructor ()
      ensures Valid() && nextNodeId == 0 && peerNames == map[] && nodeIds == map[] && groups == []
    {
      nextNodeId, nodeIds, peerNames, peerNamesRev, groups := 0, map[], map[], map[], [];
    }

    /** A peer gets a number no peer or group has had, under its name and each of its addresses. */
    method RegisterNode(name: string, gid: nat, qpNums: seq<nat>) returns (id: nat)
      requires Valid()
      modifies this
      ensures Valid() && id == old(nextNodeId) && nextNodeId == id + 1 && groups == old(groups)
      ensures id !in old(peerNamesRev)
      ensures peerNames == old(peerNames)[name := id] && peerNamesRev == old(peerNamesRev)[id := name]
      ensures forall q :: (gid, q) in nodeIds && q in qpNums ==> nodeIds[(gid, q)] == id
      ensures forall q :: q in qpNums ==> (gid, q) in nodeIds
      ensures forall a: (nat, nat) :: a.0 != gid || a.1 !in qpNums ==>
                (a in nodeIds <==> a in old(nodeIds)) && (a in nodeIds ==> nodeIds[a] == old(nodeIds)[a])
    {
      id := nextNodeId;
      nextNodeId := nextNodeId + 1;
      var i := 0;
      while i < |qpNums|
        invariant 0 <= i <= |qpNums|
        invariant nextNodeId == id + 1 && groups == old(groups)
        invariant peerNames == old(peerNames) && peerNamesRev == old(peerNamesRev)
        invariant forall k :: 0 <= k < i ==> (gid, qpNums[k]) in nodeIds && nodeIds[(gid, qpNums[k])] == id
        invariant forall a: (nat, nat) :: a.0 != gid || a.1 !in qpNums[..i] ==>
                    (a in nodeIds <==> a in old(nodeIds)) && (a in nodeIds ==> nodeIds[a] == old(nodeIds)[a])
        invariant forall a :: a in nodeIds ==> nodeIds[a] == id || nodeIds[a] in peerNamesRev
      {
        nodeIds := nodeIds[(gid, qpNums[i]) := id];
        assert qpNums[..i + 1] == qpNums[..i] + [qpNums[i]];
        i := i + 1;
      }
      peerNames := peerNames[name := id];
      peerNamesRev := peerNamesRev[id := name];
      assert qpNums[..i] == qpNums;
    }

    /**
     Joining a group twice is an error; so is one whose device context cannot be made, but
     that uses up a number. Otherwise the group gets a number of its own, like a peer.
     */
    method JoinMulticast(name: string, made: bool) returns (code: int)
      requires Valid()
      modifies this
      ensures Valid() && nodeIds == old(nodeIds)
      ensures code == -1 <==> !made || exists g :: g in old(groups) && g.name == name
      ensures code == -1 ==> groups == old(groups) && peerNames == old(peerNames) && peerNamesRev == old(peerNamesRev)
      ensures nextNodeId == old(nextNodeId) + if exists g :: g in old(groups) && g.name == name then 0 else 1
      ensures code != -1 ==>
                var id := old(nextNodeId);
                && code == 0 && id !in old(peerNamesRev)
                && peerNames == old(peerNames)[name := id] && peerNamesRev == old(peerNamesRev)[id := name]
                && groups == old(groups) + [Group(name, id, [])]
    {
      if exists g | g in groups :: g.name == name {
        return -1;
      }
      var id := nextNodeId;
      nextNodeId := nextNodeId + 1;
      if !made {
        return -1;
      }
      groups := groups + [Group(name, id, [])];
      peerNames := peerNames[name := id];
      peerNamesRev := peerNamesRev[id := name];
      return 0;
    }

    /** The addresses with a queue pair number, whatever their device. */
    ghost function Hits(keys: set<(nat, nat)>, qp: nat): set<(nat, nat)> {
      set a | a in keys && a.1 == qp
    }

    /**
     The session of a packet's source address; -1 for an unknown one. On a bonded device
     only the queue pair number counts, and two addresses with the same one end the process.
     */
    method FindSession(bond: bool, gid: nat, qp: nat, session: nat) returns (sid: int, ended: bool)
      requires session < 256
      ensures !bond ==> !ended && ((gid, qp) !in nodeIds ==> sid == -1)
      ensures !bond && (gid, qp) in nodeIds ==> sid / 256 == nodeIds[(gid, qp)] && sid % 256 == session
      ensures bond ==> (ended <==> |Hits(nodeIds.Keys, qp)| > 1)
      ensures bond && !ended ==>
                if Hits(nodeIds.Keys, qp) == {} then sid == -1
                else forall a :: a in Hits(nodeIds.Keys, qp) ==> sid / 256 == nodeIds[a] && sid % 256 == session
    {
      sid, ended := -1, false;
      if bond {
        var rest, count := nodeIds.Keys, 0;
        ghost var hits: set<(nat, nat)> := {};
        while rest != {}
          invariant rest <= nodeIds.Keys && hits == Hits(nodeIds.Keys - rest, qp) && count == |hits|
          invariant hits == {} ==> sid == -1
          invariant |hits| == 1 ==> forall a :: a in hits ==> sid / 256 == nodeIds[a] && sid % 256 == session
          decreases rest
        {
          var a :| a in rest;
          rest := rest - {a};
          if a.1 == qp {
            assert Hits(nodeIds.Keys - rest, qp) == hits + {a};
            sid := nodeIds[a] * 256 + session;
            count := count + 1;
            hits := hits + {a};
          } else {
            assert Hits(nodeIds.Keys - rest, qp) == hits;
          }
        }
        assert nodeIds.Keys - rest == nodeIds.Keys;
        ended := count > 1;
      } else if (gid, qp) in nodeIds {
        sid := nodeIds[(gid, qp)] * 256 + session;
      }
    }

    /**
     Finds the group and the index to which an acknowledgement belongs. A session that is
     not a replica's is returned as it is. Looking up an unknown node inserts an empty name.
     */
    method RedirectMulticast(sid: nat) returns (redirected: nat, index: nat)
      modifies this`peerNamesRev
      ensures var node := sid / 256;
              var name := if node in old(peerNamesRev) then old(peerNamesRev)[node] else "";
              match Find(groups, name, 0, 0)
              case Some(p) =>
                redirected / 256 == groups[p.group].groupId && redirected % 256 == sid % 256 && index == p.index
              case None => redirected == sid && index == if groups == [] then 0 else |groups[|groups| - 1].replicas|
      ensures sid / 256 in old(peerNamesRev) ==> peerNamesRev == old(peerNamesRev)
      ensures sid / 256 !in old(peerNamesRev) ==>
                peerNamesRev == old(peerNamesRev) || peerNamesRev == old(peerNamesRev)[sid / 256 := ""]
    {
      var node, session := sid / 256, sid % 256;
      ghost var name := if node in peerNamesRev then peerNamesRev[node] else "";
      index := 0;
      var g := 0;
      while g < |groups|
        invariant 0 <= g <= |groups|
        invariant Find(groups, name, 0, 0) == Find(groups, name, g, 0)
        invariant index == if g == 0 then 0 else |groups[g - 1].replicas|
        invariant name == if node in peerNamesRev then peerNamesRev[node] else ""
        invariant node in old(peerNamesRev) ==> peerNamesRev == old(peerNamesRev)
        invariant peerNamesRev == old(peerNamesRev) || peerNamesRev == old(peerNamesRev)[node := ""]
      {
        index := 0;
        while index < |groups[g].replicas|
          invariant 0 <= index <= |groups[g].replicas|
          invariant Find(groups, name, 0, 0) == Find(groups, name, g, index)
          invariant name == if node in peerNamesRev then peerNamesRev[node] else ""
          invariant node in old(peerNamesRev) ==> peerNamesRev == old(peerNamesRev)
          invariant peerNamesRev == old(peerNamesRev) || peerNamesRev == old(peerNamesRev)[node := ""]
        {
          if node !in peerNamesRev {
            peerNamesRev := peerNamesRev[node := ""];
          }
          if groups[g].replicas[index] == peerNamesRev[node] {
            return groups[g].groupId * 256 + session, index;
          }
          index := index + 1;
        }
        g := g + 1;
      }
      return sid, index;
    }
  }
}
