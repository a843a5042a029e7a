/**
 Racing and crashing enqueues of one uploaded object. A finalization loads the
 upload record, looks for a job with the object's key, enqueues one if there is
 none, saves its ID in the record and returns it; it may stop after any step,
 and any number of them run at once.
 */
module OneJobPerUpload {

  import opened Wrappers
  import opened LeaseQueue

  type UploadId = nat
  type Proc = nat

  datatype Backend = Sql | Dynamo

  datatype Upload = Upload(objectKey: string, jobId: Option<JobId>)

  /** Where a finalization of an object stands. */
  datatype Progress =
    | Loaded(upload: UploadId, key: string, saved: Option<JobId>)
    | NotFound(upload: UploadId, key: string)       // no job has the key yet
    | Canceled(upload: UploadId, key: string)       // the DynamoDB transaction was canceled
    | Have(upload: UploadId, key: string, job: JobId)
    | Saved(key: string, job: JobId)

  /** Jobs with their object keys; the DynamoDB index items; the SQL outbox rows; what callers were told. */
  datatype Store = Store(
    jobs: map<JobId, string>,
    objectIndex: map<string, JobId>,
    astrometryIndex: map<nat, JobId>,
    outbox: set<JobId>,
    uploads: map<UploadId, Upload>,
    procs: map<Proc, Progress>,
    returned: set<(string, JobId)>)

  const NEW := Store(map[], map[], map[], {}, map[], map[], {})

  datatype Step =
    | NewUpload(u: UploadId, key: string)
    | Load(p: Proc, u: UploadId)
    | ReturnSaved(p: Proc)
    | Find(p: Proc)
    | Put(p: Proc, id: JobId)
    | FindAgain(p: Proc)
    | Save(p: Proc)
    | Return(p: Proc)
    | Stop(p: Proc)
    | PutElsewhere(id: JobId, key: string)          // an enqueue outside any resumable upload

  /** `find_by_object_key`: the index item and the job it names, or the one SQL row with the key. */
  predicate Finds(b: Backend, s: Store, key: string, found: Option<JobId>) {
    match found
    case Some(id) =>
      id in s.jobs && match b {
        case Sql => s.jobs[id] == key
        case Dynamo => if key in s.objectIndex then s.objectIndex[key] == id else s.jobs[id] == key
      }
    case None =>
      match b
      case Sql => forall id <- s.jobs :: s.jobs[id] != key
      case Dynamo => if key in s.objectIndex then s.objectIndex[key] !in s.jobs else forall id <- s.jobs :: s.jobs[id] != key
  }

  /** The row or items of a new job, all written in one transaction. */
  function Insert(b: Backend, s: Store, id: JobId, key: string): Store {
    match b
    case Sql => s.(jobs := s.jobs[id := key], astrometryIndex := s.astrometryIndex[AstrometryId(id) := id],
                   outbox := s.outbox + {id})
    case Dynamo => s.(jobs := s.jobs[id := key], astrometryIndex := s.astrometryIndex[AstrometryId(id) := id],
                      objectIndex := s.objectIndex[key := id])
  }

  /** The uniqueness constraints the insert is conditional on. */
  predicate MayInsert(b: Backend, s: Store, id: JobId, key: string) {
    && id !in s.jobs && AstrometryId(id) !in s.astrometryIndex
    && match b {
         case Sql => forall k <- s.jobs :: s.jobs[k] != key
         case Dynamo => key !in s.objectIndex
       }
  }

  function Set(s: Store, p: Proc, progress: Progress): Store { s.(procs := s.procs[p := progress]) }

  function Drop(s: Store, p: Proc): Store { s.(procs := s.procs - {p}) }

  /** After a refused insert: adopt the job that has the key, or fail. */
  ghost predicate LooksUp(b: Backend, s: Store, p: Proc, s': Store)
    requires p in s.procs && (s.procs[p].NotFound? || s.procs[p].Canceled?)
  {
    var u, key := s.procs[p].upload, s.procs[p].key;
    exists found ::
      && Finds(b, s, key, found)
      && s' == (if found.Some? then Set(s, p, Have(u, key, found.value)) else Drop(s, p))
  }

  ghost predicate Next(b: Backend, s: Store, step: Step, s': Store) {
    match step
    case NewUpload(u, key) => u !in s.uploads && s' == s.(uploads := s.uploads[u := Upload(key, None)])
    case Load(p, u) =>
      u in s.uploads && s' == Set(s, p, Loaded(u, s.uploads[u].objectKey, s.uploads[u].jobId))
    case ReturnSaved(p) =>
      && p in s.procs && s.procs[p].Loaded? && s.procs[p].saved.Some?
      && s' == Drop(s, p).(returned := s.returned + {(s.procs[p].key, s.procs[p].saved.value)})
    case Find(p) =>
      && p in s.procs && s.procs[p].Loaded? && s.procs[p].saved.None?
      && var Loaded(u, key, _) := s.procs[p];
      exists found ::
        && Finds(b, s, key, found)
        && s' == Set(s, p, if found.Some? then Have(u, key, found.value) else NotFound(u, key))
    case Put(p, id) =>
      && p in s.procs && s.procs[p].NotFound?
      && var NotFound(u, key) := s.procs[p];
      if MayInsert(b, s, id, key) then s' == Set(Insert(b, s, id, key), p, Have(u, key, id))
      else if b == Dynamo then s' == Set(s, p, Canceled(u, key))
      else LooksUp(b, s, p, s') // the key is taken, or the database refuses the duplicate ID
    case FindAgain(p) => p in s.procs && s.procs[p].Canceled? && LooksUp(b, s, p, s')
    case Save(p) =>
      && p in s.procs && s.procs[p].Have?
      && var Have(u, key, job) := s.procs[p];
      && u in s.uploads
      && s' == Set(s.(uploads := s.uploads[u := s.uploads[u].(jobId := Some(job))]), p, Saved(key, job))
    case Return(p) =>
      && p in s.procs && s.procs[p].Saved?
      && s' == Drop(s, p).(returned := s.returned + {(s.procs[p].key, s.procs[p].job)})
    case Stop(p) => s' == Drop(s, p)
    case PutElsewhere(id, key) => s' == if MayInsert(b, s, id, key) then Insert(b, s, id, key) else s
  }

  predicate Names(s: Store, key: string, id: JobId) { id in s.jobs && s.jobs[id] == key }

  predicate ProgressOk(s: Store, progress: Progress) {
    match progress
    case Loaded(u, key, saved) =>
      u in s.uploads && s.uploads[u].objectKey == key && (saved.Some? ==> Names(s, key, saved.value))
    case NotFound(u, key) => u in s.uploads && s.uploads[u].objectKey == key
    case Canceled(u, key) => u in s.uploads && s.uploads[u].objectKey == key
    case Have(u, key, job) => u in s.uploads && s.uploads[u].objectKey == key && Names(s, key, job)
    case Saved(key, job) => Names(s, key, job)
  }

  ghost predicate KeysUnique(jobs: map<JobId, string>) {
    forall i, j :: i in jobs && j in jobs && jobs[i] == jobs[j] ==> i == j
  }

  ghost predicate AstrometryIndexed(jobs: map<JobId, string>, index: map<nat, JobId>) {
    forall i <- jobs :: AstrometryId(i) in index && index[AstrometryId(i)] == i
  }

  ghost predicate JobsOk(b: Backend, s: Store) {
    && KeysUnique(s.jobs) && AstrometryIndexed(s.jobs, s.astrometryIndex)
    && (b == Sql ==> s.outbox == s.jobs.Keys)
    && (b == Dynamo ==>
          && (forall i <- s.jobs :: s.jobs[i] in s.objectIndex && s.objectIndex[s.jobs[i]] == i)
          && (forall k <- s.objectIndex :: Names(s, k, s.objectIndex[k])))
  }

  ghost predicate Inv(b: Backend, s: Store) {
    JobsOk(b, s) && PromisesOk(s)
  }

  /** Every job that an upload record, a finalization or a return names has the key it was named for. */
  ghost predicate PromisesOk(s: Store) {
    && (forall u <- s.uploads :: s.uploads[u].jobId.Some? ==> Names(s, s.uploads[u].objectKey, s.uploads[u].jobId.value))
    && (forall p <- s.procs :: ProgressOk(s, s.procs[p]))
    && (forall r <- s.returned :: Names(s, r.0, r.1))
  }

  lemma InsertKeepsJobs(b: Backend, s: Store, id: JobId, key: string)
    requires JobsOk(b, s) && MayInsert(b, s, id, key)
    ensures JobsOk(b, Insert(b, s, id, key)) && Names(Insert(b, s, id, key), key, id)
  {
    forall k <- s.jobs ensures s.jobs[k] != key && AstrometryId(k) != AstrometryId(id) {
      assert AstrometryId(k) in s.astrometryIndex;
    }
    assert KeysUnique(s.jobs[id := key]);
    assert AstrometryIndexed(s.jobs[id := key], s.astrometryIndex[AstrometryId(id) := id]);
  }

  lemma InsertKeepsPromises(b: Backend, s: Store, id: JobId, key: string)
    requires PromisesOk(s) && id !in s.jobs
    ensures PromisesOk(Insert(b, s, id, key))
  {
    var s' := Insert(b, s, id, key);
    forall p <- s'.procs ensures ProgressOk(s', s'.procs[p]) {
      assert ProgressOk(s, s.procs[p]);
    }
  }

  /** A new job takes nothing away from what was promised before. */
  lemma InsertKeepsInv(b: Backend, s: Store, id: JobId, key: string)
    requires Inv(b, s) && MayInsert(b, s, id, key)
    ensures Inv(b, Insert(b, s, id, key)) && Names(Insert(b, s, id, key), key, id)
  {
    InsertKeepsJobs(b, s, id, key);
    InsertKeepsPromises(b, s, id, key);
  }

  /** Whatever a lookup returns has the key it was asked for. */
  lemma FindsTheJob(b: Backend, s: Store, key: string, found: Option<JobId>)
    requires JobsOk(b, s) && Finds(b, s, key, found)
    ensures found.Some? ==> Names(s, key, found.value)
    ensures found.None? ==> forall id <- s.jobs :: s.jobs[id] != key
  {}

  lemma SetKeepsInv(b: Backend, s: Store, p: Proc, progress: Progress)
    requires Inv(b, s) && ProgressOk(s, progress)
    ensures Inv(b, Set(s, p, progress))
  {
    var s' := Set(s, p, progress);
    forall q <- s'.procs ensures ProgressOk(s', s'.procs[q]) {
      assert q != p ==> ProgressOk(s, s.procs[q]);
    }
  }

  lemma DropKeepsInv(b: Backend, s: Store, p: Proc)
    requires Inv(b, s)
    ensures Inv(b, Drop(s, p))
  {
    forall q <- Drop(s, p).procs ensures ProgressOk(Drop(s, p), s.procs[q]) {
      assert ProgressOk(s, s.procs[q]);
    }
  }

  lemma ReportKeepsInv(b: Backend, s: Store, key: string, id: JobId)
    requires Inv(b, s) && Names(s, key, id)
    ensures Inv(b, s.(returned := s.returned + {(key, id)}))
  {
    var s' := s.(returned := s.returned + {(key, id)});
    forall q <- s'.procs ensures ProgressOk(s', s'.procs[q]) {
      assert ProgressOk(s, s.procs[q]);
    }
  }

  lemma UploadsKeepInv(b: Backend, s: Store, u: UploadId, upload: Upload)
    requires Inv(b, s)
    requires u in s.uploads ==> s.uploads[u].objectKey == upload.objectKey
    requires upload.jobId.Some? ==> Names(s, upload.objectKey, upload.jobId.value)
    ensures Inv(b, s.(uploads := s.uploads[u := upload]))
  {
    var s' := s.(uploads := s.uploads[u := upload]);
    forall q <- s'.procs ensures ProgressOk(s', s'.procs[q]) {
      assert ProgressOk(s, s.procs[q]);
    }
  }

  lemma LookupKeepsInv(b: Backend, s: Store, p: Proc, s': Store)
    requires Inv(b, s) && p in s.procs && (s.procs[p].NotFound? || s.procs[p].Canceled?)
    requires LooksUp(b, s, p, s')
    ensures Inv(b, s')
  {
    var u, key := s.procs[p].upload, s.procs[p].key;
    var found :|
      && Finds(b, s, key, found)
      && s' == (if found.Some? then Set(s, p, Have(u, key, found.value)) else Drop(s, p));
    FindsTheJob(b, s, key, found);
    assert ProgressOk(s, s.procs[p]);
    if found.Some? { SetKeepsInv(b, s, p, Have(u, key, found.value)); } else { DropKeepsInv(b, s, p); }
  }

  lemma FindKeepsInv(b: Backend, s: Store, p: Proc, s': Store)
    requires Inv(b, s) && Next(b, s, Find(p), s')
    ensures Inv(b, s')
  {
    var u, key := s.procs[p].upload, s.procs[p].key;
    var found :|
      && Finds(b, s, key, found)
      && s' == Set(s, p, if found.Some? then Have(u, key, found.value) else NotFound(u, key));
    FindsTheJob(b, s, key, found);
    assert ProgressOk(s, s.procs[p]);
    SetKeepsInv(b, s, p, if found.Some? then Have(u, key, found.value) else NotFound(u, key));
  }

  lemma PutKeepsInv(b: Backend, s: Store, p: Proc, id: JobId, s': Store)
    requires Inv(b, s) && Next(b, s, Put(p, id), s')
    ensures Inv(b, s')
  {
    var u, key := s.procs[p].upload, s.procs[p].key;
    assert ProgressOk(s, s.procs[p]);
    if MayInsert(b, s, id, key) {
      InsertKeepsInv(b, s, id, key);
      SetKeepsInv(b, Insert(b, s, id, key), p, Have(u, key, id));
    } else if b == Dynamo {
      SetKeepsInv(b, s, p, Canceled(u, key));
    } else {
      LookupKeepsInv(b, s, p, s');
    }
  }

  lemma StepKeepsInv(b: Backend, s: Store, step: Step, s': Store)
    requires Inv(b, s) && Next(b, s, step, s')
    ensures Inv(b, s')
  {
    match step
    case NewUpload(u, key) => UploadsKeepInv(b, s, u, Upload(key, None));
    case Load(p, u) => SetKeepsInv(b, s, p, Loaded(u, s.uploads[u].objectKey, s.uploads[u].jobId));
    case Find(p) => FindKeepsInv(b, s, p, s');
    case FindAgain(p) => LookupKeepsInv(b, s, p, s');
    case Put(p, id) => PutKeepsInv(b, s, p, id, s');
    case PutElsewhere(id, key) => if MayInsert(b, s, id, key) { InsertKeepsInv(b, s, id, key); }
    case Save(p) =>
      var Have(u, key, job) := s.procs[p];
      assert ProgressOk(s, s.procs[p]);
      UploadsKeepInv(b, s, u, s.uploads[u].(jobId := Some(job)));
      SetKeepsInv(b, s.(uploads := s.uploads[u := s.uploads[u].(jobId := Some(job))]), p, Saved(key, job));
    case ReturnSaved(p) =>
      assert ProgressOk(s, s.procs[p]);
      DropKeepsInv(b, s, p);
      ReportKeepsInv(b, Drop(s, p), s.procs[p].key, s.procs[p].saved.value);
    case Return(p) =>
      assert ProgressOk(s, s.procs[p]);
      DropKeepsInv(b, s, p);
      ReportKeepsInv(b, Drop(s, p), s.procs[p].key, s.procs[p].job);
    case Stop(p) => DropKeepsInv(b, s, p);
  }

  ghost predicate IsRun(b: Backend, states: seq<Store>, steps: seq<Step>) {
    && |states| == |steps| + 1 && states[0] == NEW
    && forall i :: 0 <= i < |steps| ==> Next(b, states[i], steps[i], states[i + 1])
  }

  lemma {:induction false} RunKeepsInv(b: Backend, states: seq<Store>, steps: seq<Step>, n: nat)
    requires IsRun(b, states, steps) && n <= |steps|
    ensures Inv(b, states[n])
  {
    if n > 0 {
      RunKeepsInv(b, states, steps, n - 1);
      StepKeepsInv(b, states[n - 1], steps[n - 1], states[n]);
    }
  }

  /**
   One job per uploaded object: in every reachable state at most one job has a
   given object key or Astrometry ID, SQL keeps one outbox row per job, and every
   successful return for an object, from any finalization at any time, names that job.
   */
  lemma OneJob(b: Backend, states: seq<Store>, steps: seq<Step>, n: nat)
    requires IsRun(b, states, steps) && n <= |steps|
    ensures var s := states[n];
      && (forall i, j :: i in s.jobs && j in s.jobs && s.jobs[i] == s.jobs[j] ==> i == j)
      && (forall i, j :: i in s.jobs && j in s.jobs && AstrometryId(i) == AstrometryId(j) ==> i == j)
      && (b == Sql ==> s.outbox == s.jobs.Keys)
      && (forall r <- s.returned :: Names(s, r.0, r.1))
      && (forall r, r' :: r in s.returned && r' in s.returned && r.0 == r'.0 ==> r.1 == r'.1)
  {
    RunKeepsInv(b, states, steps, n);
  }

  // ---- Undisturbed finalizations ----

  /** A finalization that nothing interrupts: load, look up, enqueue if there is no job, save, return. */
  ghost predicate Finalizes(b: Backend, s: Store, p: Proc, u: UploadId, id: JobId, enqueues: bool, s': Store) {
    exists s1, s2, s3, s4 ::
      && Next(b, s, Load(p, u), s1) && Next(b, s1, Find(p), s2)
      && (if enqueues then Next(b, s2, Put(p, id), s3) else s3 == s2)
      && Next(b, s3, Save(p), s4) && Next(b, s4, Return(p), s')
  }

  /** Saving the job in the upload record, then returning it. */
  lemma SaveAndReturn(b: Backend, s: Store, p: Proc, u: UploadId, key: string, id: JobId) returns (s4: Store, s': Store)
    requires p in s.procs && s.procs[p] == Have(u, key, id) && u in s.uploads
    ensures Next(b, s, Save(p), s4) && Next(b, s4, Return(p), s')
    ensures s'.jobs == s.jobs && s'.outbox == s.outbox && p !in s'.procs
    ensures s'.uploads == s.uploads[u := s.uploads[u].(jobId := Some(id))] && s'.returned == s.returned + {(key, id)}
  {
    s4 := Set(s.(uploads := s.uploads[u := s.uploads[u].(jobId := Some(id))]), p, Saved(key, id));
    s' := Drop(s4, p).(returned := s4.returned + {(key, id)});
  }

  /** Loading an upload without a job, then looking for one. */
  lemma LoadAndFind(b: Backend, s: Store, p: Proc, u: UploadId, found: Option<JobId>) returns (s1: Store, s2: Store)
    requires u in s.uploads && s.uploads[u].jobId.None? && Finds(b, s, s.uploads[u].objectKey, found)
    ensures Next(b, s, Load(p, u), s1) && Next(b, s1, Find(p), s2)
    ensures var key := s.uploads[u].objectKey;
      s2 == Set(s, p, if found.Some? then Have(u, key, found.value) else NotFound(u, key))
  {
    var key := s.uploads[u].objectKey;
    s1 := Set(s, p, Loaded(u, key, None));
    s2 := Set(s1, p, if found.Some? then Have(u, key, found.value) else NotFound(u, key));
    assert Finds(b, s1, key, found);
  }

  lemma FreshMayBeInserted(b: Backend, s: Store, id: JobId, key: string)
    requires JobsOk(b, s) && forall k <- s.jobs :: s.jobs[k] != key
    requires id !in s.jobs && AstrometryId(id) !in s.astrometryIndex
    ensures MayInsert(b, s, id, key) && Finds(b, s, key, None)
    ensures var s' := Insert(b, s, id, key);
      && s'.jobs == s.jobs[id := key] && s'.uploads == s.uploads && s'.returned == s.returned && s'.procs == s.procs
      && (b == Sql ==> s'.outbox == s.outbox + {id})
  {}

  /** The first upload of an object is enqueued under a fresh ID, saved and returned. */
  lemma FreshUploadIsEnqueued(b: Backend, s: Store, p: Proc, u: UploadId, id: JobId) returns (s': Store)
    requires Inv(b, s) && u in s.uploads && s.uploads[u].jobId.None?
    requires forall k <- s.jobs :: s.jobs[k] != s.uploads[u].objectKey
    requires id !in s.jobs && AstrometryId(id) !in s.astrometryIndex
    ensures Finalizes(b, s, p, u, id, true, s')
    ensures s'.jobs == s.jobs[id := s.uploads[u].objectKey]
    ensures s'.uploads == s.uploads[u := s.uploads[u].(jobId := Some(id))]
    ensures s'.returned == s.returned + {(s.uploads[u].objectKey, id)} && p !in s'.procs
    ensures b == Sql ==> s'.outbox == s.outbox + {id}
  {
    var key := s.uploads[u].objectKey;
    FreshMayBeInserted(b, s, id, key);
    var s1, s2 := LoadAndFind(b, s, p, u, None);
    FreshMayBeInserted(b, s2, id, key);
    var s3 := Set(Insert(b, s2, id, key), p, Have(u, key, id));
    assert Next(b, s2, Put(p, id), s3);
    var s4;
    s4, s' := SaveAndReturn(b, s3, p, u, key, id);
  }

  /** A new upload has no job yet, so either finalization can start from it. */
  lemma UploadBegins(b: Backend, s: Store, u: UploadId, key: string) returns (s0: Store)
    requires Inv(b, s) && u !in s.uploads
    ensures Next(b, s, NewUpload(u, key), s0) && Inv(b, s0)
    ensures s0 == s.(uploads := s.uploads[u := Upload(key, None)])
  {
    s0 := s.(uploads := s.uploads[u := Upload(key, None)]);
    StepKeepsInv(b, s, NewUpload(u, key), s0);
  }

  predicate IsStepOf(step: Step, p: Proc) {
    match step
    case ReturnSaved(q) => q == p
    case Find(q) => q == p
    case Put(q, _) => q == p
    case FindAgain(q) => q == p
    case Save(q) => q == p
    case Return(q) => q == p
    case _ => false
  }

  /** A finalization of an upload that has its job can only return that job. */
  lemma SavedJobIsReturned(b: Backend, s: Store, p: Proc, u: UploadId, step: Step, s1: Store, s2: Store)
    requires u in s.uploads && s.uploads[u].jobId.Some? && Next(b, s, Load(p, u), s1)
    requires IsStepOf(step, p) && Next(b, s1, step, s2)
    ensures s2 == s.(procs := s.procs - {p}, returned := s.returned + {(s.uploads[u].objectKey, s.uploads[u].jobId.value)})
  {
    assert s.procs[p := Loaded(u, s.uploads[u].objectKey, s.uploads[u].jobId)] - {p} == s.procs - {p};
  }

  /** A later upload of the object adopts the job that has its key. */
  lemma KnownObjectIsAdopted(b: Backend, s: Store, p: Proc, u: UploadId, id: JobId) returns (s': Store)
    requires Inv(b, s) && u in s.uploads && s.uploads[u].jobId.None?
    requires id in s.jobs && s.jobs[id] == s.uploads[u].objectKey
    ensures Finalizes(b, s, p, u, id, false, s')
    ensures s'.jobs == s.jobs && s'.uploads == s.uploads[u := s.uploads[u].(jobId := Some(id))]
    ensures s'.returned == s.returned + {(s.uploads[u].objectKey, id)} && p !in s'.procs
  {
    assert Finds(b, s, s.uploads[u].objectKey, Some(id));
    var s1, s2 := LoadAndFind(b, s, p, u, Some(id));
    var s4;
    s4, s' := SaveAndReturn(b, s2, p, u, s.uploads[u].objectKey, id);
  }
}
