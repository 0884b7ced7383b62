/** The workflow registry: at most one live worker per target database (`crates/pgshard-agent/src/workflow.rs`). */
module Registry {
  import opened Wrappers

  datatype Handle = Handle(spec: seq<int>, target: string, stopping: bool, finished: bool)

  datatype StartError = Conflict(id: string) | TargetBusy(id: string) | Stopping(id: string)

  /** Live workers hold distinct target databases. */
  ghost predicate Exclusive(handles: map<string, Handle>) {
    forall a, b | a in handles && b in handles && !handles[a].finished && !handles[b].finished && handles[a].target == handles[b].target :: a == b
  }

  class WorkflowRegistry {
    var handles: map<string, Handle>

    ghost predicate Valid()
      reads this
    {
      Exclusive(handles)
    }

    constructor()
      ensures Valid() && handles == map[]
    {
      handles := map[];
    }

    /** A live worker of another id that holds the target, if any. */
    method Holder(id: string, target: string) returns (other: Option<string>)
      ensures other.None? <==> forall k | k in handles && k != id && !handles[k].finished :: handles[k].target != target
      ensures other.Some? ==> other.value in handles && other.value != id && !handles[other.value].finished && handles[other.value].target == target
    {
      var rest := handles.Keys;
      while rest != {}
        invariant rest <= handles.Keys
        invariant forall k | k in handles && k !in rest && k != id && !handles[k].finished :: handles[k].target != target
        decreases |rest|
      {
        var k :| k in rest;
        if k != id && !handles[k].finished && handles[k].target == target {
          return Some(k);
        }
        rest := rest - {k};
      }
      return None;
    }

    /**
    Starts a worker, or acknowledges an identical live one. A worker is added exactly when
    its id and its target are free, and an acknowledgement always has a live worker behind it.
    */
    method Start(id: string, spec: seq<int>, target: string) returns (r: Result<(), StartError>)
      requires Valid()
      modifies this
      ensures Valid()
      ensures r.Err? ==> handles == old(handles)
      ensures r.Ok? ==> id in handles && !handles[id].finished && !handles[id].stopping && handles[id].spec == spec
      ensures r.Ok? && (id !in old(handles) || old(handles)[id].finished) ==>
        handles == old(handles)[id := Handle(spec, target, false, false)]
        && forall k | k in old(handles) && k != id && !old(handles)[k].finished :: old(handles)[k].target != target
      ensures r.Ok? && id in old(handles) && !old(handles)[id].finished ==> handles == old(handles)
      ensures r.Ok? <==> var live := id in old(handles) && !old(handles)[id].finished;
        if live then !old(handles)[id].stopping && old(handles)[id].spec == spec
        else forall k | k in old(handles) && k != id && !old(handles)[k].finished :: old(handles)[k].target != target
      ensures r.Err? ==> var k := r.error.id;
        && k in handles && !handles[k].finished && (k == id || handles[k].target == target)
        && (r.error.Stopping? <==> handles[k].stopping) && (r.error.Conflict? ==> k == id) && (r.error.TargetBusy? ==> k != id)
    {
      if id in handles && !handles[id].finished {
        if handles[id].stopping {
          return Err(Stopping(id));
        }
        if handles[id].spec == spec {
          return Ok(());
        }
        return Err(Conflict(id));
      }
      var other := Holder(id, target);
      if other.Some? {
        if handles[other.value].stopping {
          return Err(Stopping(other.value));
        }
        return Err(TargetBusy(other.value));
      }
      handles := handles[id := Handle(spec, target, false, false)];
      return Ok(());
    }

    method Stop(id: string)
      requires Valid()
      modifies this
      ensures Valid()
      ensures handles == if id in old(handles) then old(handles)[id := old(handles)[id].(stopping := true)] else old(handles)
    {
      if id in handles {
        handles := handles[id := handles[id].(stopping := true)];
      }
    }

    /** The worker's task ended. */
    method Finish(id: string)
      requires Valid() && id in handles
      modifies this
      ensures Valid() && handles == old(handles)[id := old(handles)[id].(finished := true)]
    {
      handles := handles[id := handles[id].(finished := true)];
    }
  }
}
