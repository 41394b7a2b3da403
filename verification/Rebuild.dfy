/** Rebuilding the empty policy collection from 512 to 768 dimensions, with any call to
    the vector store failing before or after it took effect
    (scripts/policy_collection_embedding_rebuild.py). */
module Rebuild {
  import opened Wrappers

  datatype Metric = Cosine | OtherMetric

  /** A collection takes its dimension from the first vector and keeps it. */
  datatype Collection = Collection(dimension: Option<nat>, ids: set<nat>, metric: Metric)

  const OLD_DIMENSION := 512
  const NEW_DIMENSION := 768

  predicate AcceptsDimension(c: Collection, d: nat) { c.dimension.None? || c.dimension.value == d }

  function EmptyOf(d: nat): Collection { Collection(Some(d), {}, Cosine) }

  /** What a call to the server does. */
  datatype Fault = Works | RaisesBefore | RaisesAfter

  datatype RebuildCode =
    | TargetForbidden | ConfigDimensionInvalid | ModelDimensionInvalid | CollectionNotFound | CollectionOpenFailed
    | CollectionNotEmpty | CollectionMetricInvalid | PostgresPreflightFailed | PostgresPendingDocuments
    | DimensionProbeFailed | DimensionUnexpected | CountFailed
    | RebuildFailed | RestoreFailed

  datatype Status = AlreadyNew | RebuildRequired | Rebuilt

  /** What the script finds around the server: configuration, model and database. */
  datatype Environment = Environment(
    targetAllowed: bool, configuredDimension: nat, modelDimension: Option<nat>, pending: Option<(nat, nat)>)

  predicate EnvironmentOk(env: Environment) {
    env.targetAllowed && env.configuredDimension == NEW_DIMENSION && env.modelDimension == Some(NEW_DIMENSION)
    && env.pending == Some((0, 0))
  }

  /** The code of the first thing that is wrong before a rebuild, if no call fails. */
  predicate Refuses(env: Environment, c: Option<Collection>, code: RebuildCode) {
    var configured := env.targetAllowed && env.configuredDimension == 768;
    var modelled := configured && env.modelDimension == Some(768);
    var present := modelled && c.Some?;
    var empty := present && c.value.ids == {};
    var cosine := empty && c.value.metric == Cosine;
    var settled := cosine && env.pending == Some((0, 0));
    match code
    case TargetForbidden => !env.targetAllowed
    case ConfigDimensionInvalid => env.targetAllowed && !configured
    case ModelDimensionInvalid => configured && !modelled
    case CollectionNotFound => modelled && !present
    case CollectionNotEmpty => present && !empty
    case CollectionMetricInvalid => empty && !cosine
    case PostgresPreflightFailed => cosine && env.pending.None?
    case PostgresPendingDocuments => cosine && env.pending.Some? && !settled
    case DimensionUnexpected => settled && c.value.dimension !in {Some(512), Some(768)}
    case _ => false
  }

  class ChromaServer {
    /** The target collection, if there is one. */
    var collection: Option<Collection>

    /** How the next calls go; beyond its end they work. */
    var script: seq<Fault>

    constructor (collection: Option<Collection>, script: seq<Fault>)
      ensures this.collection == collection && this.script == script
    {
      this.collection, this.script := collection, script;
    }

    predicate AllWork()
      reads this
    {
      forall i :: 0 <= i < |script| ==> script[i].Works?
    }

    method NextFault() returns (f: Fault)
      modifies this`script
      ensures old(AllWork()) ==> f.Works? && AllWork()
    {
      if script == [] {
        return Works;
      }
      f := script[0];
      script := script[1..];
    }

    // ---- the server's calls ---------------------------------------------

    method DeleteCollection() returns (ok: bool)
      modifies this
      ensures collection == None || collection == old(collection)
      ensures ok ==> old(collection).Some? && collection == None
      ensures old(AllWork()) ==> AllWork() && (ok <==> old(collection).Some?)
    {
      var f := NextFault();
      if f.RaisesBefore? || collection.None? {
        return false;
      }
      collection := None;
      ok := f.Works?;
    }

    method GetOrCreateCollection() returns (ok: bool)
      modifies this
      ensures
        var found := Some(if old(collection).Some? then old(collection).value else Collection(None, {}, Cosine));
        (collection == found || collection == old(collection)) && (ok ==> collection == found)
      ensures old(AllWork()) ==> AllWork() && ok
    {
      var f := NextFault();
      if f.RaisesBefore? {
        return false;
      }
      if collection.None? {
        collection := Some(Collection(None, {}, Cosine));
      }
      ok := f.Works?;
    }

    method Upsert(id: nat, dimension: nat) returns (ok: bool)
      modifies this
      ensures
        var before := old(collection);
        if before.Some? && AcceptsDimension(before.value, dimension) then
          var after := Some(before.value.(dimension := Some(dimension), ids := before.value.ids + {id}));
          (collection == before || collection == after) && (ok ==> collection == after) && (old(AllWork()) ==> ok)
        else collection == before && !ok
      ensures old(AllWork()) ==> AllWork()
    {
      var f := NextFault();
      if f.RaisesBefore? || collection.None? || !AcceptsDimension(collection.value, dimension) {
        return false;
      }
      collection := Some(collection.value.(dimension := Some(dimension), ids := collection.value.ids + {id}));
      ok := f.Works?;
    }

    method DeleteRecord(id: nat) returns (ok: bool)
      modifies this
      ensures
        var before := old(collection);
        if before.Some? then
          var after := Some(before.value.(ids := before.value.ids - {id}));
          (collection == before || collection == after) && (ok ==> collection == after) && (old(AllWork()) ==> ok)
        else collection == before && !ok
      ensures old(AllWork()) ==> AllWork()
    {
      var f := NextFault();
      if f.RaisesBefore? || collection.None? {
        return false;
      }
      collection := Some(collection.value.(ids := collection.value.ids - {id}));
      ok := f.Works?;
    }

    method Count() returns (n: Option<nat>)
      modifies this`script
      ensures n.Some? ==> collection.Some? && n.value == |collection.value.ids|
      ensures old(AllWork()) ==> AllWork() && (n.Some? <==> collection.Some?)
    {
      var f := NextFault();
      n := if f.Works? && collection.Some? then Some(|collection.value.ids|) else None;
    }

    /** `_probe_collection_dimension`; `None` when the query fails for another reason. */
    method ProbeDimension(dimension: nat) returns (accepts: Option<bool>)
      modifies this`script
      ensures accepts.Some? ==> collection.Some? && accepts.value == AcceptsDimension(collection.value, dimension)
      ensures old(AllWork()) ==> AllWork() && (accepts.Some? <==> collection.Some?)
    {
      var f := NextFault();
      accepts := if f.Works? && collection.Some? then Some(AcceptsDimension(collection.value, dimension)) else None;
    }

    /** Which record a query restricted to the canary's identity finds; the answer may
        be wrong, but only a right one lets the script go on. */
    method QueryNearest(id: nat, honest: bool) returns (found: Option<nat>)
      modifies this`script
      ensures found == Some(id) ==> honest && collection.Some? && id in collection.value.ids
      ensures old(AllWork()) ==> AllWork() && (honest && collection.Some? && id in collection.value.ids ==> found == Some(id))
    {
      var f := NextFault();
      if !f.Works? || collection.None? {
        return None;
      }
      found := if honest then (if id in collection.value.ids then Some(id) else None) else Some(id + 1);
    }

    // ---- preflight ------------------------------------------------------

    /** `run_preflight`: it changes nothing, and lets a rebuild start only for an empty
        512-dimension collection. */
    method RunPreflight(env: Environment) returns (r: Result<Status, RebuildCode>)
      modifies this`script
      ensures r.Success? ==> EnvironmentOk(env) && collection.Some?
      ensures r == Success(RebuildRequired) ==> collection == Some(EmptyOf(OLD_DIMENSION))
      ensures r == Success(AlreadyNew) ==> collection == Some(EmptyOf(NEW_DIMENSION))
      ensures r != Success(Rebuilt) && r != Failure(RestoreFailed)
      ensures old(AllWork()) ==>
                && AllWork()
                && (r == Success(RebuildRequired) <==> EnvironmentOk(env) && collection == Some(EmptyOf(OLD_DIMENSION)))
                && (r == Success(AlreadyNew) <==> EnvironmentOk(env) && collection == Some(EmptyOf(NEW_DIMENSION)))
      ensures old(AllWork()) ==> forall code :: r == Failure(code) <==> Refuses(env, collection, code)
      ensures r == Failure(CollectionOpenFailed) || r == Failure(CountFailed) || r == Failure(DimensionProbeFailed) ==> !old(AllWork())
    {
      if !env.targetAllowed {
        return Failure(TargetForbidden);
      }
      if env.configuredDimension != NEW_DIMENSION {
        return Failure(ConfigDimensionInvalid);
      }
      if env.modelDimension != Some(NEW_DIMENSION) {
        return Failure(ModelDimensionInvalid);
      }
      var f := NextFault();
      if !f.Works? {
        return Failure(CollectionOpenFailed);
      }
      if collection.None? {
        return Failure(CollectionNotFound);
      }
      var count := Count();
      if count.None? {
        return Failure(CountFailed);
      }
      if count.value != 0 {
        return Failure(CollectionNotEmpty);
      }
      if collection.value.metric != Cosine {
        return Failure(CollectionMetricInvalid);
      }
      if env.pending.None? {
        return Failure(PostgresPreflightFailed);
      }
      if env.pending.value.0 != 0 || env.pending.value.1 != 0 {
        return Failure(PostgresPendingDocuments);
      }
      var acceptsOld := ProbeDimension(OLD_DIMENSION);
      if acceptsOld.None? {
        return Failure(DimensionProbeFailed);
      }
      var acceptsNew := ProbeDimension(NEW_DIMENSION);
      if acceptsNew.None? {
        return Failure(DimensionProbeFailed);
      }
      assert collection.value.ids == {};
      if acceptsNew.value && !acceptsOld.value {
        return Success(AlreadyNew);
      }
      if !acceptsOld.value || acceptsNew.value {
        return Failure(DimensionUnexpected);
      }
      r := Success(RebuildRequired);
    }

    // ---- restoring ------------------------------------------------------

    /** `_restore_512_empty_collection`: true means an empty 512-dimension collection
        has been seen. */
    method RestoreOldCollection(canary: nat) returns (restored: bool)
      requires collection.Some? ==> collection.value.metric == Cosine
      modifies this
      ensures restored ==> collection == Some(EmptyOf(OLD_DIMENSION))
      ensures collection.Some? ==> collection.value.metric == Cosine
      ensures old(AllWork()) ==> restored && AllWork()
    {
      var deleted := DeleteCollection();
      var ok := GetOrCreateCollection();
      if !ok {
        return false;
      }
      ok := Upsert(canary, OLD_DIMENSION);
      if !ok {
        return false;
      }
      ok := DeleteRecord(canary);
      if !ok {
        return false;
      }
      var acceptsOld := ProbeDimension(OLD_DIMENSION);
      if acceptsOld != Some(true) {
        return false;
      }
      var acceptsNew := ProbeDimension(NEW_DIMENSION);
      if acceptsNew != Some(false) {
        return false;
      }
      var count := Count();
      if count != Some(0) {
        return false;
      }
      assert collection.value.ids == {};
      restored := true;
    }

    // ---- rebuilding -----------------------------------------------------

    /** The part of `run_apply` that changes the collection. */
    method Replace(canary: nat, honest: bool) returns (ok: bool)
      requires collection == Some(EmptyOf(OLD_DIMENSION))
      modifies this
      ensures ok ==> collection == Some(EmptyOf(NEW_DIMENSION))
      ensures collection.Some? ==> collection.value.metric == Cosine
      ensures old(AllWork()) ==> AllWork() && (ok <==> honest)
    {
      ok := DeleteCollection();
      if !ok {
        return;
      }
      ok := GetOrCreateCollection();
      if !ok {
        return;
      }
      ok := Upsert(canary, NEW_DIMENSION);
      if !ok {
        return;
      }
      var found := QueryNearest(canary, honest);
      if found != Some(canary) {
        return false;
      }
      ok := DeleteRecord(canary);
      if !ok {
        return;
      }
      var count := Count();
      if count != Some(0) {
        return false;
      }
      assert collection.value.ids == {};
    }

    /** `run_apply`. Whatever call fails, and whether or not it took effect: success
        means an empty 768-dimension collection; an error other than RESTORE_FAILED
        means that the collection is as it was; and only an empty 512-dimension
        collection is ever touched. */
    method RunApply(env: Environment, canary: nat, honest: bool) returns (r: Result<Status, RebuildCode>)
      modifies this
      ensures r.Success? ==> EnvironmentOk(env) && collection == Some(EmptyOf(NEW_DIMENSION)) && r.value in {Rebuilt, AlreadyNew}
      ensures r.Failure? && r.error != RestoreFailed ==> collection == old(collection)
      ensures old(collection) != Some(EmptyOf(OLD_DIMENSION)) ==>
                collection == old(collection) && r != Failure(RestoreFailed) && r != Success(Rebuilt)
      ensures old(AllWork()) && honest && EnvironmentOk(env) ==>
                && AllWork()
                && (old(collection) == Some(EmptyOf(OLD_DIMENSION)) ==> r == Success(Rebuilt))
                && (old(collection) == Some(EmptyOf(NEW_DIMENSION)) ==> r == Success(AlreadyNew))
      ensures old(AllWork()) && !honest && EnvironmentOk(env) && old(collection) == Some(EmptyOf(OLD_DIMENSION)) ==>
                r == Failure(RebuildFailed)
      ensures old(AllWork()) ==> forall code :: Refuses(env, old(collection), code) ==> r == Failure(code)
    {
      var preflight := RunPreflight(env);
      if preflight.Failure? {
        return Failure(preflight.error);
      }
      if preflight.value == AlreadyNew {
        return Success(AlreadyNew);
      }
      var replaced := Replace(canary, honest);
      if replaced {
        return Success(Rebuilt);
      }
      var restored := RestoreOldCollection(canary + 1);
      r := Failure(if restored then RebuildFailed else RestoreFailed);
    }
  }

  /** A rebuild that has succeeded is final, whatever fails afterwards: no later run
      changes the collection or ends in RESTORE_FAILED, none rebuilds again, and one
      whose calls work finds nothing to do. */
  method RebuildIsFinal(
    server: ChromaServer, env: Environment, canary: nat, honest: bool,
    laterFaults: seq<Fault>, laterEnv: Environment, laterHonest: bool)
    returns (first: Result<Status, RebuildCode>, second: Result<Status, RebuildCode>, third: Result<Status, RebuildCode>)
    modifies server
    ensures first.Success? ==>
              && server.collection == Some(EmptyOf(NEW_DIMENSION))
              && (second == Success(AlreadyNew) || (second.Failure? && second.error != RestoreFailed))
              && third == Success(AlreadyNew)
  {
    first := server.RunApply(env, canary, honest);
    server.script := laterFaults;
    second := server.RunApply(laterEnv, canary, laterHonest);
    server.script := [];
    third := server.RunApply(env, canary, true);
  }

  /** A failed run that restored can be repeated: once calls work again, preflight asks
      for the rebuild as before and the next run completes it. */
  method RetryAfterRestore(server: ChromaServer, env: Environment, canary: nat, honest: bool)
    returns (failed: Result<Status, RebuildCode>, preflight: Result<Status, RebuildCode>, retried: Result<Status, RebuildCode>)
    requires EnvironmentOk(env) && server.collection == Some(EmptyOf(OLD_DIMENSION))
    modifies server
    ensures failed.Failure? && failed.error != RestoreFailed ==> preflight == Success(RebuildRequired) && retried == Success(Rebuilt)
  {
    failed := server.RunApply(env, canary, honest);
    server.script := [];
    preflight := server.RunPreflight(env);
    retried := server.RunApply(env, canary, true);
  }
}
