/**
  The in-memory run-state (examples/zts/ordering/ranstore.go): completed FQNs per
  plan execution, in a raw and in a folded view.
*/
module RunStore {
  import opened Pruning
  import opened Runs

  class Store {
    var instances: map<string, set<string>>
    var logical: map<string, set<string>>

    function State(): StoreState
      reads this
    {
      StoreState(instances, logical)
    }

    constructor ()
      ensures State() == StoreState(map[], map[])
    {
      instances, logical := map[], map[];
    }

    /** Both views gain one name, in one critical section. */
    method MarkRan(planExecId: string, instanceFqn: string, logicalFqn: string)
      modifies this
      ensures State() == Runs.MarkRan(old(State()), planExecId, instanceFqn, logicalFqn)
    {
      instances := Add(instances, planExecId, instanceFqn);
      logical := Add(logical, planExecId, logicalFqn);
    }

    method Ran(planExecId: string, fqn: string) returns (ran: bool)
      ensures ran <==> HasRun(RecordOf(State(), planExecId), fqn)
    {
      if planExecId in instances && fqn in instances[planExecId] { return true; }
      return planExecId in logical && fqn in logical[planExecId];
    }

    /** add: creates the inner set on demand. */
    static method Add(m: map<string, set<string>>, planExecId: string, key: string)
      returns (r: map<string, set<string>>)
      ensures r == m[planExecId := SetOf(m, planExecId) + {key}]
    {
      r := m;
      if planExecId !in r {
        r := r[planExecId := {}];
      }
      r := r[planExecId := r[planExecId] + {key}];
    }
  }

  /**
    Neither view folds: a run of one instance is visible under that very name and
    under its logical name, in its own plan execution, and changes no other answer.
  */
  lemma RanIsExact(s: StoreState, e: string, instance: string, logical: string, e': string, f: string)
    ensures HasRun(RecordOf(Runs.MarkRan(s, e, instance, logical), e'), f) <==>
      HasRun(RecordOf(s, e'), f) || (e' == e && (f == instance || f == logical))
  {
    var s' := Runs.MarkRan(s, e, instance, logical);
    if e' == e {
      assert SetOf(s'.instances, e) == SetOf(s.instances, e) + {instance};
    } else {
      assert SetOf(s'.instances, e') == SetOf(s.instances, e');
    }
  }
}
