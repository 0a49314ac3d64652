/** ClusterSetMapper: which objects belong to which cluster set. */
module SetMapper {

  type Membership = map<string, set<string>>

  /** Every entry is non-empty, under a non-empty set name. */
  predicate Proper(m: Membership) {
    forall k :: k in m ==> k != "" && m[k] != {}
  }

  /** The objects of a set; none when the set has no entry. */
  function ObjectsIn(m: Membership, clusterSet: string): set<string> {
    if clusterSet in m then m[clusterSet] else {}
  }

  predicate Member(m: Membership, clusterSet: string, obj: string) {
    obj in ObjectsIn(m, clusterSet)
  }

  /** Proper mappers that give every set the same objects are the same. */
  lemma ObjectsDecide(m: Membership, m': Membership)
    requires Proper(m) && Proper(m')
    requires forall k :: ObjectsIn(m, k) == ObjectsIn(m', k)
    ensures m == m'
  {
    forall k ensures (k in m <==> k in m') && (k in m ==> m[k] == m'[k]) {
      assert ObjectsIn(m, k) == ObjectsIn(m', k);
    }
  }

  /** The pointwise union. */
  function Union(m: Membership, m': Membership): (u: Membership)
    requires Proper(m) && Proper(m')
    ensures Proper(u) && forall k :: ObjectsIn(u, k) == ObjectsIn(m, k) + ObjectsIn(m', k)
  {
    map k | k in m.Keys + m'.Keys :: ObjectsIn(m, k) + ObjectsIn(m', k)
  }

  lemma UnionCommutes(a: Membership, b: Membership)
    requires Proper(a) && Proper(b)
    ensures Union(a, b) == Union(b, a)
  {
    ObjectsDecide(Union(a, b), Union(b, a));
  }

  lemma UnionAssociates(a: Membership, b: Membership, c: Membership)
    requires Proper(a) && Proper(b) && Proper(c)
    ensures Union(Union(a, b), c) == Union(a, Union(b, c))
  {
    hide Union;
    ObjectsDecide(Union(Union(a, b), c), Union(a, Union(b, c)));
  }

  lemma UnionIdempotent(a: Membership)
    requires Proper(a)
    ensures Union(a, a) == a && Union(a, map[]) == a && Union(map[], a) == a
  {
    hide Union;
    ObjectsDecide(Union(a, a), a);
    ObjectsDecide(Union(a, map[]), a);
    ObjectsDecide(Union(map[], a), a);
  }

  class ClusterSetMapper {
    var members: Membership

    ghost predicate Valid()
      reads this
    {
      Proper(members)
    }

    constructor ()
      ensures Valid() && members == map[]
    {
      members := map[];
    }

    method UpdateClusterSetByObjects(clusterSet: string, objects: set<string>)
      requires Valid()
      modifies this
      ensures Valid()
      ensures forall k :: ObjectsIn(members, k) ==
                if k == clusterSet && k != "" then objects else ObjectsIn(old(members), k)
    {
      if clusterSet == "" {
        return;
      }
      if objects == {} {
        members := members - {clusterSet};
        return;
      }
      members := members[clusterSet := objects];
    }

    method DeleteClusterSet(clusterSet: string)
      requires Valid()
      modifies this
      ensures Valid()
      ensures forall k :: ObjectsIn(members, k) == if k == clusterSet then {} else ObjectsIn(old(members), k)
    {
      if clusterSet == "" {
        return;
      }
      members := members - {clusterSet};
    }

    /** Afterwards this mapper has the members of the other one, which stays as it is; copied
        onto itself a mapper ends up empty. */
    method CopyClusterSetMapper(required: ClusterSetMapper)
      requires Valid() && required.Valid()
      modifies this
      ensures Valid() && members == if required == this then map[] else required.members
    {
      var sets := members.Keys;
      while sets != {}
        invariant Valid()
        invariant forall k :: k !in sets ==> ObjectsIn(members, k) == {}
        decreases sets
      {
        var k :| k in sets;
        DeleteClusterSet(k);
        sets := sets - {k};
      }
      ObjectsDecide(members, map[]);
      UpdateEach(required.members);
      ObjectsDecide(members, required.members);
    }

    /** Takes the object out of every set but one (of every set when that one is ""), and
        drops the sets that become empty. */
    method RemoveElsewhere(obj: string, keep: string)
      requires Valid()
      modifies this
      ensures Valid()
      ensures forall k, o :: Member(members, k, o) <==> Member(old(members), k, o) && (o != obj || k == keep)
    {
      var sets := members.Keys;
      while sets != {}
        invariant Valid() && sets <= old(members).Keys
        invariant forall k :: ObjectsIn(members, k) ==
                    if k == keep || k in sets then ObjectsIn(old(members), k) else ObjectsIn(old(members), k) - {obj}
        decreases sets
      {
        var k :| k in sets;
        sets := sets - {k};
        if k != keep && obj in ObjectsIn(members, k) {
          var rest := members[k] - {obj};
          if rest == {} {
            members := members - {k};
          } else {
            members := members[k := rest];
          }
        }
      }
    }

    method DeleteObjectInClusterSet(obj: string)
      requires Valid()
      modifies this
      ensures Valid()
      ensures forall k, o :: Member(members, k, o) <==> Member(old(members), k, o) && (o != obj || o == "")
    {
      if obj == "" {
        return;
      }
      RemoveElsewhere(obj, "");
    }

    method AddObjectInClusterSet(obj: string, clusterSet: string)
      requires Valid()
      modifies this
      ensures Valid()
      ensures forall k, o :: Member(members, k, o) <==>
                Member(old(members), k, o) || (o == obj != "" && k == clusterSet != "")
    {
      if obj == "" || clusterSet == "" {
        return;
      }
      members := members[clusterSet := ObjectsIn(members, clusterSet) + {obj}];
    }

    /** The object ends up in the given set and no other; other objects stay where they are. */
    method UpdateObjectInClusterSet(obj: string, clusterSet: string)
      requires Valid()
      modifies this
      ensures Valid()
      ensures obj == "" || clusterSet == "" ==> members == old(members)
      ensures obj != "" && clusterSet != "" ==>
                forall k, o :: Member(members, k, o) <==>
                  if o == obj then k == clusterSet else Member(old(members), k, o)
    {
      if obj == "" || clusterSet == "" {
        return;
      }
      AddObjectInClusterSet(obj, clusterSet);
      RemoveElsewhere(obj, clusterSet);
    }

    /** Some set that holds the object; which one is up to the map iteration. */
    method GetObjectClusterset(obj: string) returns (clusterSet: string)
      requires Valid()
      ensures clusterSet != "" ==> Member(members, clusterSet, obj)
      ensures clusterSet == "" ==> forall k :: !Member(members, k, obj)
    {
      var sets := members.Keys;
      while sets != {}
        invariant sets <= members.Keys
        invariant forall k :: Member(members, k, obj) ==> k in sets
        decreases sets
      {
        var k :| k in sets;
        if obj in members[k] {
          return k;
        }
        sets := sets - {k};
      }
      return "";
    }

    /** The pointwise union; when one side is empty the other mapper itself is returned. */
    method UnionObjectsInClusterSet(other: ClusterSetMapper) returns (union: ClusterSetMapper)
      requires Valid() && other.Valid()
      ensures union.Valid() && union.members == Union(members, other.members)
      ensures union == this || union == other || fresh(union)
    {
      if members == map[] {
        UnionIdempotent(other.members);
        return other;
      }
      if other.members == map[] {
        UnionIdempotent(members);
        return this;
      }
      hide Union;
      union := new ClusterSetMapper();
      union.UpdateEach(map k | k in members :: members[k] + ObjectsIn(other.members, k));
      union.UpdateEach(map k | k in other.members && k !in members :: other.members[k]);
      ObjectsDecide(union.members, Union(members, other.members));
    }

    /** A loop of UpdateClusterSetByObjects over the entries of a map. */
    method UpdateEach(entries: Membership)
      requires Valid() && Proper(entries)
      modifies this
      ensures Valid()
      ensures forall k :: ObjectsIn(members, k) == if k in entries then entries[k] else ObjectsIn(old(members), k)
    {
      var sets := entries.Keys;
      while sets != {}
        invariant Valid() && sets <= entries.Keys
        invariant forall k :: ObjectsIn(members, k) ==
                    if k in entries && k !in sets then entries[k] else ObjectsIn(old(members), k)
        decreases sets
      {
        var k :| k in sets;
        UpdateClusterSetByObjects(k, entries[k]);
        sets := sets - {k};
      }
    }
  }
}
