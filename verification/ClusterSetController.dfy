/** Reconcile of the cluster-set controller, undisturbed: it does what the worker's steps do. */
module ClusterSetController {
  import opened SetMapper
  import opened MapperQueue

  class Controller {
    var labels: map<string, string>
    var sets: map<string, ClusterSet>
    const mapper: ClusterSetMapper
    var pending: seq<Event>
    var queue: set<string>

    ghost predicate Valid()
      reads this, mapper
    {
      mapper.Valid() && "" !in sets
    }

    ghost function Abstract(): State
      reads this, mapper
    {
      State(labels, sets, mapper.members, pending, queue, Idle)
    }

    constructor ()
      ensures Valid() && Abstract() == INITIAL
    {
      labels, sets, pending, queue := map[], map[], [], {};
      mapper := new ClusterSetMapper();
    }

    /** client.Update on a cluster set: the change is announced by an event. */
    method Update(name: string, c: ClusterSet)
      requires Valid() && name in sets
      modifies this
      ensures Valid() && Abstract() == PutSet(old(Abstract()), name, c)
    {
      if c.deleting && !c.finalizer && !c.others {
        sets := sets - {name};
      } else {
        sets := sets[name := c];
      }
      pending := pending + [SetEvent(name)];
    }

    /** generateClustersetCluster */
    method GenerateClusters(name: string) returns (clusters: set<string>)
      ensures clusters == Labelled(Abstract(), name)
    {
      clusters := {};
      var rest := labels.Keys;
      while rest != {}
        invariant rest <= labels.Keys
        invariant clusters == set c | c in labels && c !in rest && labels[c] == name
        decreases rest
      {
        var c :| c in rest;
        if labels[c] == name {
          clusters := clusters + {c};
        }
        rest := rest - {c};
      }
    }

    /** The set as just fetched. */
    ghost function Reading(name: string): State
      reads this, mapper
      requires name in sets
    {
      Abstract().(work := Fetched(name, sets[name]))
    }

    /** The branch for a set that is being deleted. */
    method CleanUp(name: string, fault: Fault)
      requires Valid() && name in sets && sets[name].deleting
      modifies this, mapper
      ensures Valid() && Abstract() == CleanWith(old(Reading(name)), fault)
    {
      ghost var before := mapper.members;
      if fault == AtRoles {
        queue := queue + {name};
        return;
      }
      mapper.DeleteClusterSet(name);
      ObjectsDecide(mapper.members, before - {name});
      if fault == AtFinalizer {
        queue := queue + {name};
        return;
      }
      Update(name, sets[name].(finalizer := false));
    }

    /** The branch for a live set: finalizer, cluster roles, clusters, namespaces. */
    method Sync(name: string, fault: Fault)
      requires Valid() && name in sets && !sets[name].deleting
      modifies this, mapper
      ensures Valid() && Abstract() == SyncWith(old(Reading(name)), fault)
    {
      ghost var before := mapper.members;
      if !sets[name].finalizer {
        if fault == AtFinalizer {
          queue := queue + {name};
          return;
        }
        Update(name, sets[name].(finalizer := true));
      }
      if fault == AtRoles || fault == AtClusters {
        queue := queue + {name};
        return;
      }
      var clusters := GenerateClusters(name);
      mapper.UpdateClusterSetByObjects(name, clusters);
      ObjectsDecide(mapper.members, if clusters == {} then before - {name} else before[name := clusters]);
      if fault == AtNamespaces {
        queue := queue + {name};
      }
    }

    /** Reconcile; an error puts the set back into the queue. */
    method Reconcile(name: string, fault: Fault)
      requires Valid() && name in queue
      modifies this, mapper
      ensures Valid() && Abstract() == ReconcileWith(old(Abstract()), name, fault)
    {
      if fault == AtRead {
        return;
      }
      queue := queue - {name};
      if name !in sets {
        return;
      }
      if !sets[name].deleting {
        Sync(name, fault);
      } else if sets[name].finalizer {
        CleanUp(name, fault);
      }
    }
  }
}
