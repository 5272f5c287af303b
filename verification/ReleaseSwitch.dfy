/** Deploying and rolling back a site by switching its `current` link, and
    reconciling what an interruption leaves (src/deployment_recovery.rs,
    src/deploy/execute.rs, src/rollback/execute.rs, src/transaction/prune.rs).
    Every step can fail or be the last one of the process. */
module ReleaseSwitch {
  import opened Steps
  import opened Text

  type Id = string

  datatype Operation = Deploy | Rollback

  /** `Unreadable` is what an interrupted creation leaves. */
  datatype Progress = InProgress | Committed | Abandoned | Unreadable

  datatype Record = Record(operation: Operation, progress: Progress)

  datatype Checkpoint = Checkpoint(id: Id, operation: Operation, target: Id, previous: Option<Id>, hasRevision: bool)

  /** The release `current` points at, the releases that are there and whether
      they pass validation, the transaction records and the checkpoints of one
      site; and what interrupted or failed renames leave behind: `<id>.json.tmp`
      among the checkpoints, and `.current.tmp-<release>` beside the link.
      Nothing removes either. */
  datatype World = World(
    current: Option<Id>,
    releases: map<Id, bool>,
    records: map<Id, Record>,
    checkpoints: map<Id, Checkpoint>,
    strays: set<Id>,
    links: set<Id>)

  datatype Answer = Switched | Refused | RecordLost | Reconciled(progress: Progress) | Died

  /** What the sweep of old records meets: the requests whose records are old
      enough, and those whose checkpoint the existence check fails to see. */
  datatype Sweep = Sweep(expired: set<Id>, blind: set<Id>)

  /** Requests, where `tip` says whether the revision to deploy is the tip of an
      allowed branch; recoveries; the retention that follows a request, after its
      lock, and takes the old releases but the one that request activated; and
      a release that others change. */
  datatype Event =
    | Request(id: Id, operation: Operation, release: Id, tip: bool, sweep: Sweep)
    | Recovery(id: Id)
    | Retention(active: Id, oldest: set<Id>)
    | Edit(release: Id, valid: bool)

  function RequestTarget(id: Id, operation: Operation, release: Id): Id {
    if operation.Deploy? then id else release
  }

  function Target(e: Event): Option<Id> {
    if e.Request? then Some(RequestTarget(e.id, e.operation, e.release)) else None
  }

  /** The link points at a release that is there. */
  predicate IsServed(w: World) {
    w.current.Some? ==> w.current.value in w.releases
  }

  /** A deploy makes a new release of an allowed revision, a rollback needs a
      valid one. */
  predicate CanStage(w: World, operation: Operation, target: Id, tip: bool) {
    match operation
    case Deploy => tip && target !in w.releases
    case Rollback => Lookup(w.releases, target) == Some(true)
  }

  function Staged(releases: map<Id, bool>, operation: Operation, target: Id): map<Id, bool> {
    if operation.Deploy? then releases[target := true] else releases
  }

  predicate Open(w: World, id: Id) {
    id in w.records && w.records[id].progress.InProgress?
  }

  predicate Finished(w: World, id: Id) {
    id in w.records && (w.records[id].progress.Committed? || w.records[id].progress.Abandoned?)
  }

  /** An interrupted request still has its checkpoint. */
  predicate Blocks(w: World, id: Id) {
    id in w.checkpoints && Open(w, id)
  }

  /** Nothing among the checkpoints stops a request. */
  predicate Clear(w: World) {
    w.strays == {} && forall id | id in w.checkpoints :: Finished(w, id)
  }

  /** The checkpoints that a sweep takes for absent and that outlive their records. */
  function Missed(w: World, sweep: Sweep): set<Id> {
    set id | id in w.checkpoints && Finished(w, id) && id in sweep.expired && id in sweep.blind
  }

  /** The id is free once the sweep is done. */
  predicate IsAdmissible(w: World, sweep: Sweep, id: Id) {
    id !in w.records || (Finished(w, id) && id in sweep.expired)
  }

  /** The requests that nothing but a failing step stands in the way of. */
  predicate CanSwitch(w: World, sweep: Sweep, id: Id, operation: Operation, target: Id, tip: bool) {
    && Clear(w)
    && CanStage(w, operation, target, tip)
    && target !in w.links
    && IsAdmissible(w, sweep, id)
    && Missed(w, sweep) == {}
  }

  /** What a request that went through leaves: the link and the record say so, its
      checkpoint is the only one, and no release but a new one is touched. */
  ghost predicate IsSwitched(w: World, v: World, id: Id, operation: Operation, target: Id) {
    && v.current == Some(target) && v.releases == Staged(w.releases, operation, target)
    && v.checkpoints.Keys == {id} && Lookup(v.records, id) == Some(Record(operation, Committed))
    && v.strays == {} && v.links == w.links
  }

  /** What an event does in which nothing fails. */
  ghost predicate IsQuietStep(w: World, e: Event, a: Option<Answer>, v: World) {
    && (forall m | Open(v, m) :: Open(w, m))
    && (forall m | Blocks(v, m) :: Blocks(w, m))
    && match e
       case Request(id, operation, release, tip, sweep) =>
         var target := RequestTarget(id, operation, release);
         && a.Some? && (a.value.Switched? || a.value.Refused?)
         && (a.value.Switched? <==> CanSwitch(w, sweep, id, operation, target, tip))
         && (a.value.Switched? ==> IsSwitched(w, v, id, operation, target))
         && (a.value.Refused? ==> v.current == w.current)
         && (a.value.Refused? && IsAdmissible(w, sweep, id) ==> Lookup(v.records, id) == Some(Record(operation, Abandoned)))
         && (forall m | m != id && Finished(w, m) && m in sweep.expired :: m !in v.records)
         && (forall m | m != id && m in Missed(w, sweep) :: m in v.checkpoints)
       case Recovery(id) =>
         && v == w.(records := v.records)
         && a == Some(Verdict(w, id))
         && v.records == Judged(w, id)
       case Retention(active, oldest) => a.None? && v == w.(releases := w.releases - (oldest - {active}))
       case Edit(release, valid) =>
         a.None? && v == if release in w.releases then w.(releases := w.releases[release := valid]) else w
  }

  predicate Matches(c: Checkpoint, id: Id, operation: Operation) {
    && c.id == id
    && c.operation == operation
    && (operation.Deploy? ==> c.hasRevision && c.target == id)
    && (operation.Rollback? ==> !c.hasRevision)
  }

  // ---- what the records say about the link --------------------------------

  /** What happened: the requests that renamed the link, those that made it
      point elsewhere, the checkpoints that have outlived the record they were
      written for, and the requests that were reconciled from such a one. */
  datatype History = History(switched: set<Id>, effective: set<Id>, stale: set<Id>, misjudged: set<Id>)

  ghost predicate Truthful(w: World, h: History) {
    && h.stale <= w.checkpoints.Keys <= w.records.Keys + h.stale
    && h.effective <= h.switched
    && (forall id | id in w.records :: TruthfulRecord(w, id, h))
    && (forall id | Blocks(w, id) && id !in h.stale :: TruthfulCheckpoint(w, id, h))
  }

  ghost predicate TruthfulRecord(w: World, id: Id, h: History)
    requires id in w.records
  {
    match w.records[id].progress
    case InProgress => id !in w.checkpoints || id in h.stale ==> id !in h.switched
    case Committed => id in h.switched || id in h.misjudged
    case Abandoned => id !in h.effective
    case Unreadable => id !in h.switched && (id in w.checkpoints ==> id in h.stale)
  }

  /** An open request with a checkpoint of its own is alone, and its checkpoint
      says which of two places the link can be in. */
  ghost predicate TruthfulCheckpoint(w: World, id: Id, h: History)
    requires Blocks(w, id)
  {
    var c := w.checkpoints[id];
    && w.checkpoints.Keys == {id}
    && Matches(c, id, w.records[id].operation)
    && w.current == (if id in h.switched then Some(c.target) else c.previous)
    && (id in h.effective <==> id in h.switched && c.previous != Some(c.target))
  }

  function Forgotten(h: History, id: Id): History {
    h.(switched := h.switched - {id}, effective := h.effective - {id}, misjudged := h.misjudged - {id})
  }

  lemma AdmitTruthful(w: World, id: Id, record: Record, h: History)
    requires Truthful(w, h) && id !in w.records
    requires record.progress.InProgress? || record.progress.Unreadable?
    ensures Truthful(w, Forgotten(h, id))
    ensures Truthful(w.(records := w.records[id := record]), Forgotten(h, id))
  {
  }

  /** A checkpoint whose request has finished is not needed any more. */
  lemma ForgetTruthful(w: World, id: Id, h: History)
    requires Truthful(w, h) && id in w.checkpoints && Finished(w, id)
    ensures Truthful(w.(checkpoints := w.checkpoints - {id}), h.(stale := h.stale - {id}))
  {
  }

  /** A finished record may go; a checkpoint that it leaves behind is stale. */
  lemma DropTruthful(w: World, id: Id, h: History)
    requires Truthful(w, h) && Finished(w, id)
    ensures Truthful(w.(records := w.records - {id}),
                     if id in w.checkpoints then h.(stale := h.stale + {id}) else h)
  {
  }

  /** A checkpoint written while none is left keeps at most one of them open. */
  lemma CheckpointTruthful(w: World, c: Checkpoint, h: History)
    requires Truthful(w, h) && Open(w, c.id) && w.checkpoints == map[]
    requires Matches(c, c.id, w.records[c.id].operation) && c.previous == w.current
    ensures Truthful(w.(checkpoints := map[c.id := c]), h)
  {
  }

  lemma SwitchTruthful(w: World, id: Id, h: History)
    requires Truthful(w, h) && Blocks(w, id) && id !in h.stale && id !in h.switched
    ensures Truthful(w.(current := Some(w.checkpoints[id].target)), Renamed(w.checkpoints[id], h))
  {
  }

  function Renamed(c: Checkpoint, h: History): History {
    h.(switched := h.switched + {c.id},
       effective := if c.previous != Some(c.target) then h.effective + {c.id} else h.effective)
  }

  lemma FinishTruthful(w: World, id: Id, progress: Progress, h: History)
    requires Truthful(w, h) && Open(w, id)
    requires (progress.Committed? && (id in h.switched || id in h.misjudged)) || (progress.Abandoned? && id !in h.effective)
    ensures Truthful(w.(records := w.records[id := w.records[id].(progress := progress)]), h)
  {
  }

  /** Releases, and what is left behind by failed renames, do not touch the
      records. */
  lemma StrayTruthful(w: World, releases: map<Id, bool>, strays: set<Id>, links: set<Id>, h: History)
    requires Truthful(w, h)
    ensures Truthful(w.(releases := releases, strays := strays, links := links), h)
  {
  }

  /** What the checkpoint and the link say together. */
  predicate SaysSwitched(w: World, id: Id)
    requires id in w.checkpoints
  {
    var c := w.checkpoints[id];
    w.current == Some(c.target) && c.previous != Some(c.target)
  }

  /** What a recovery of the request answers when nothing fails. */
  function Verdict(w: World, id: Id): Answer {
    if id !in w.records || w.records[id].progress.Unreadable? then Refused
    else if !Open(w, id) then Reconciled(w.records[id].progress)
    else if id !in w.checkpoints || !Matches(w.checkpoints[id], id, w.records[id].operation) then Refused
    else if SaysSwitched(w, id) then Reconciled(Committed)
    else if w.current == w.checkpoints[id].previous then Reconciled(Abandoned)
    else Refused
  }

  function Judged(w: World, id: Id): map<Id, Record> {
    if Verdict(w, id).Reconciled? then w.records[id := w.records[id].(progress := Verdict(w, id).progress)] else w.records
  }

  /** It is whether the request had an effect, and no third case remains. */
  lemma VerdictIsTrue(w: World, id: Id, h: History)
    requires Truthful(w, h) && Blocks(w, id) && id !in h.stale
    ensures Matches(w.checkpoints[id], id, w.records[id].operation)
    ensures SaysSwitched(w, id) <==> id in h.effective
    ensures !SaysSwitched(w, id) ==> w.current == w.checkpoints[id].previous
  {
  }

  lemma OneLess(releases: map<Id, bool>, all: set<Id>, rest: set<Id>, id: Id)
    requires id in rest && rest <= all
    ensures releases - (all - rest) - {id} == releases - (all - (rest - {id}))
  {
    assert all - (rest - {id}) == (all - rest) + {id};
  }

  // ---- what a sweep leaves ------------------------------------------------

  ghost predicate SameAt(w: World, v: World, j: Id) {
    Lookup(v.records, j) == Lookup(w.records, j) && Lookup(v.checkpoints, j) == Lookup(w.checkpoints, j)
  }

  /** What a sweep may do to one request: it only takes away, nothing unless
      the request is finished and old, and the record without the checkpoint
      only where that is not seen. */
  ghost predicate SweptSome(w: World, v: World, sweep: Sweep, j: Id) {
    && (Lookup(v.records, j) == Lookup(w.records, j) || j !in v.records)
    && (Lookup(v.checkpoints, j) == Lookup(w.checkpoints, j) || j !in v.checkpoints)
    && (!(Finished(w, j) && j in sweep.expired) ==> SameAt(w, v, j))
    && (j in v.checkpoints && j in w.records && j !in v.records ==> j in Missed(w, sweep))
  }

  ghost predicate IsSwept(w: World, v: World, sweep: Sweep) {
    && v == w.(records := v.records, checkpoints := v.checkpoints)
    && forall j :: SweptSome(w, v, sweep, j)
  }

  /** What a sweep in which nothing fails does to one request: a checkpoint
      outlives its record exactly where it is not seen. */
  ghost predicate SweptAt(w: World, v: World, sweep: Sweep, j: Id) {
    && (j in v.records <==> j in w.records && !(Finished(w, j) && j in sweep.expired))
    && (j in v.checkpoints <==> j in w.checkpoints && (j in v.records || j in sweep.blind))
  }

  ghost predicate IsFullySwept(w: World, v: World, sweep: Sweep) {
    forall j | j in w.records :: SweptAt(w, v, sweep, j)
  }

  /** A sweep that has still to look at `rest`. */
  ghost predicate IsPartlySwept(w: World, v: World, sweep: Sweep, rest: set<Id>) {
    IsSwept(w, v, sweep) && forall j | j in rest :: SameAt(w, v, j)
  }

  ghost predicate IsFullySweptBut(w: World, v: World, sweep: Sweep, rest: set<Id>) {
    forall j | j in w.records && j !in rest :: SweptAt(w, v, sweep, j)
  }

  lemma SweptStep(w: World, u: World, v: World, sweep: Sweep, id: Id, rest: set<Id>)
    requires IsPartlySwept(w, u, sweep, rest + {id}) && id !in rest
    requires SweptSome(u, v, sweep, id)
    requires v == u.(records := v.records, checkpoints := v.checkpoints) && forall j | j != id :: SameAt(u, v, j)
    ensures IsPartlySwept(w, v, sweep, rest)
    ensures IsFullySweptBut(w, u, sweep, rest + {id}) && SweptAt(u, v, sweep, id) ==> IsFullySweptBut(w, v, sweep, rest)
  {
    assert SameAt(w, u, id);
    forall j ensures SweptSome(w, v, sweep, j) {
      assert SweptSome(w, u, sweep, j);
      assert j != id ==> SameAt(u, v, j);
    }
    forall j | j in rest ensures SameAt(w, v, j) {
      assert SameAt(w, u, j) && SameAt(u, v, j);
    }
    if IsFullySweptBut(w, u, sweep, rest + {id}) && SweptAt(u, v, sweep, id) {
      forall j | j in w.records && j !in rest ensures SweptAt(w, v, sweep, j) {
        assert j != id ==> SweptAt(w, u, sweep, j) && SameAt(u, v, j);
      }
    }
  }

  lemma SweptSkip(w: World, v: World, sweep: Sweep, id: Id, rest: set<Id>)
    requires IsPartlySwept(w, v, sweep, rest + {id}) && id !in rest
    requires !(Finished(v, id) && id in sweep.expired)
    ensures IsPartlySwept(w, v, sweep, rest)
    ensures IsFullySweptBut(w, v, sweep, rest + {id}) ==> IsFullySweptBut(w, v, sweep, rest)
  {
    assert SameAt(w, v, id);
  }

  lemma SweptStart(w: World, sweep: Sweep)
    ensures IsPartlySwept(w, w, sweep, w.records.Keys) && IsFullySweptBut(w, w, sweep, w.records.Keys)
  {
  }

  lemma SweptEnd(w: World, v: World, sweep: Sweep)
    requires IsPartlySwept(w, v, sweep, {})
    ensures IsSwept(w, v, sweep)
    ensures IsFullySweptBut(w, v, sweep, {}) ==> IsFullySwept(w, v, sweep)
  {
  }

  /** A sweep clears no way, and blocks it exactly by what it did not see. */
  lemma SweptClear(w: World, v: World, sweep: Sweep)
    requires IsSwept(w, v, sweep)
    ensures Clear(v) ==> Clear(w)
    ensures IsFullySwept(w, v, sweep) ==> (Clear(v) <==> Clear(w) && Missed(w, sweep) == {})
    ensures IsFullySwept(w, v, sweep) ==> forall j | j in Missed(w, sweep) :: j in v.checkpoints && j !in v.records
    ensures Stays(w, v) && v.records.Keys <= w.records.Keys
  {
    forall j | j in v.records ensures j in w.records {
      assert SweptSome(w, v, sweep, j);
    }
    forall j | j in w.checkpoints && !Finished(w, j)
      ensures j in v.checkpoints && Lookup(v.records, j) == Lookup(w.records, j)
    {
      assert SweptSome(w, v, sweep, j);
    }
    if IsFullySwept(w, v, sweep) {
      forall j | j in Missed(w, sweep) ensures j in v.checkpoints && j !in v.records {
        assert SweptAt(w, v, sweep, j);
      }
      forall j | j in v.checkpoints && !Finished(v, j) && Finished(w, j) ensures j in Missed(w, sweep) {
        assert SweptSome(w, v, sweep, j) && SweptAt(w, v, sweep, j);
      }
      forall j | j in v.checkpoints ensures j in w.checkpoints {
        assert SweptSome(w, v, sweep, j);
      }
    }
  }

  /** What stops requests in `w` stops them in `v`. */
  ghost predicate Stays(w: World, v: World) {
    && w.strays <= v.strays && w.links <= v.links
    && forall j | j in w.checkpoints && !Finished(w, j) :: j in v.checkpoints && Lookup(v.records, j) == Lookup(w.records, j)
  }

  /** The same, except for one request's own checkpoint. */
  ghost predicate StaysBut(w: World, v: World, id: Id) {
    && w.strays <= v.strays && w.links <= v.links
    && forall j | j != id && j in w.checkpoints && !Finished(w, j) ::
         j in v.checkpoints && Lookup(v.records, j) == Lookup(w.records, j)
  }

  /** A sweep opens nothing, and a completed one drops what is finished and old. */
  lemma SweptOpen(w: World, v: World, sweep: Sweep)
    requires IsSwept(w, v, sweep)
    ensures forall m | Open(v, m) :: Open(w, m)
    ensures forall m | Blocks(v, m) :: Blocks(w, m)
    ensures IsFullySwept(w, v, sweep) ==> forall m | Finished(w, m) && m in sweep.expired :: m !in v.records
  {
    forall m | Open(v, m) ensures Open(w, m) && (Blocks(v, m) ==> Blocks(w, m)) {
      assert SweptSome(w, v, sweep, m);
    }
    if IsFullySwept(w, v, sweep) {
      forall m | Finished(w, m) && m in sweep.expired ensures m !in v.records {
        assert SweptAt(w, v, sweep, m);
      }
    }
  }

  /** A request that ends closed leaves nothing open that was not. */
  lemma StaysClosed(w: World, u: World, v: World, id: Id)
    requires forall m | Open(u, m) :: Open(w, m)
    requires forall m | Blocks(u, m) :: Blocks(w, m)
    requires v.checkpoints.Keys <= u.checkpoints.Keys + {id}
    requires forall j | j != id :: Lookup(v.records, j) == Lookup(u.records, j)
    requires v == u || !Open(v, id)
    ensures forall m | Open(v, m) :: Open(w, m)
    ensures forall m | Blocks(v, m) :: Blocks(w, m)
  {
    forall m | Open(v, m) ensures Open(u, m) && (Blocks(v, m) ==> Blocks(u, m)) {
      assert v != u ==> m != id && Lookup(v.records, m) == Lookup(u.records, m);
    }
  }

  /** What stops requests before a sweep still does after the request it was for. */
  lemma SweptStays(w: World, u: World, v: World, sweep: Sweep, id: Id)
    requires IsSwept(w, u, sweep) && StaysBut(u, v, id) && (id in u.records ==> v == u)
    ensures StaysBut(w, v, id) && u.records.Keys <= w.records.Keys && (Clear(u) ==> Clear(w))
    ensures forall m | Blocks(w, m) :: Blocks(v, m)
  {
    SweptClear(w, u, sweep);
    SweptAdmits(w, u, sweep, id);
    StaysTrans(w, u, v, id);
    forall m | Blocks(w, m) ensures Blocks(v, m) {
      assert m in u.checkpoints && Lookup(u.records, m) == Lookup(w.records, m);
    }
  }

  /** What a request does after its sweep, when nothing fails. */
  ghost predicate IsQuietSwitch(w: World, id: Id, operation: Operation, target: Id, tip: bool, a: Answer, v: World) {
    && (a.Switched? || a.Refused?)
    && (a.Switched? <==>
          Clear(w) && target !in w.links && id !in w.records && CanStage(w, operation, target, tip))
    && (a.Switched? ==> IsSwitched(w, v, id, operation, target))
    && (a.Refused? ==> v.current == w.current)
    && (a.Refused? && id !in w.records ==> Lookup(v.records, id) == Some(Record(operation, Abandoned)))
    && (id in w.records ==> v == w)
    && v.checkpoints.Keys <= w.checkpoints.Keys + {id}
    && (forall j | j != id :: Lookup(v.records, j) == Lookup(w.records, j))
  }

  lemma QuietSwept(w: World, u: World, id: Id, operation: Operation, release: Id, tip: bool, sweep: Sweep, a: Answer, v: World)
    requires IsSwept(w, u, sweep) && IsFullySwept(w, u, sweep) && StaysBut(u, v, id)
    requires IsQuietSwitch(u, id, operation, RequestTarget(id, operation, release), tip, a, v)
    ensures IsQuietStep(w, Request(id, operation, release, tip, sweep), Some(a), v)
  {
    SweptClear(w, u, sweep);
    SweptAdmits(w, u, sweep, id);
    SweptOpen(w, u, sweep);
    StaysClosed(w, u, v, id);
    forall m | m != id && Finished(w, m) && m in sweep.expired ensures m !in v.records {
      assert Lookup(v.records, m) == Lookup(u.records, m);
    }
    forall m | m != id && m in Missed(w, sweep) ensures m in v.checkpoints {
      assert m in u.checkpoints && !Finished(u, m);
    }
  }

  /** After a sweep, who can be admitted. */
  lemma SweptAdmits(w: World, v: World, sweep: Sweep, id: Id)
    requires IsSwept(w, v, sweep)
    ensures Open(w, id) ==> id in v.records
    ensures id !in w.records ==> id !in v.records
    ensures IsFullySwept(w, v, sweep) ==> (id in v.records <==> id in w.records && !(Finished(w, id) && id in sweep.expired))
  {
    assert SweptSome(w, v, sweep, id);
    if IsFullySwept(w, v, sweep) && id in w.records {
      assert SweptAt(w, v, sweep, id);
    }
  }

  /** A new record clears no way and, without a checkpoint, blocks none. */
  lemma AdmittedClear(w: World, id: Id, record: Record)
    requires id !in w.records && !(record.progress.Committed? || record.progress.Abandoned?)
    ensures var v := w.(records := w.records[id := record]); Clear(v) <==> Clear(w)
  {
    var v := w.(records := w.records[id := record]);
    assert forall j | j in w.checkpoints && j != id :: Finished(v, j) <==> Finished(w, j);
  }

  lemma StaysThrough(w: World, u: World, record: Record, v: World, id: Id)
    requires Stays(w, u) && id !in u.records && StaysBut(u.(records := u.records[id := record]), v, id)
    ensures StaysBut(w, v, id)
  {
    forall j | j != id && j in w.checkpoints && !Finished(w, j)
      ensures j in v.checkpoints && Lookup(v.records, j) == Lookup(w.records, j)
    {
      assert j in u.checkpoints && Lookup(u.records, j) == Lookup(w.records, j);
      assert !Finished(u.(records := u.records[id := record]), j);
    }
  }

  lemma StaysTrans(w: World, u: World, v: World, id: Id)
    requires Stays(w, u) && StaysBut(u, v, id)
    ensures StaysBut(w, v, id)
    ensures forall j | j != id && j in u.checkpoints && j !in u.records :: j in v.checkpoints && j !in v.records
  {
    forall j | j != id && j in w.checkpoints && !Finished(w, j)
      ensures j in v.checkpoints && Lookup(v.records, j) == Lookup(w.records, j)
    {
      assert j in u.checkpoints && Lookup(u.records, j) == Lookup(w.records, j);
      assert !Finished(u, j);
    }
  }

  class Site {
    var w: World
    const env: Environment
    ghost var h: History

    /** A site without records, with what earlier failures may have left. */
    constructor (env: Environment, current: Option<Id>, releases: map<Id, bool>, strays: set<Id>, links: set<Id>)
      ensures Valid() && w == World(current, releases, map[], map[], strays, links) && this.env == env && h.stale == {}
    {
      w := World(current, releases, map[], map[], strays, links);
      this.env := env;
      h := History({}, {}, {}, {});
    }

    ghost predicate Valid()
      reads this
    {
      Truthful(w, h)
    }

    // ---- what the environment does ----------------------------------------

    method Atomic(next: World) returns (s: Status)
      requires env.alive
      modifies `w, env
      ensures env.alive <==> !s.Crashed?
      ensures s.Done? ==> w == next && env.faults == old(env.faults)
      ensures s.Failed? ==> w == old(w)
      ensures s.Crashed? ==> w == old(w) || w == next
      ensures !s.Done? ==> env.faults > old(env.faults)
      ensures env.reliable ==> s.Done?
    {
      s := env.Attempt();
      if s.Done? {
        w := next;
      } else if s.Crashed? {
        if * {
          w := next;
        }
      }
    }

    // ---- deploy and rollback ----------------------------------------------

    /** `preflight::run`: a new record, never an existing one. */
    method Admit(id: Id, operation: Operation) returns (s: Status)
      requires env.alive
      requires Valid()
      modifies this, env
      ensures env.alive <==> !s.Crashed?
      ensures Valid() && h.stale == old(h).stale
      ensures w == old(w).(records := w.records)
      ensures w.records == old(w.records) ||
              (id !in old(w.records) && exists p | p == InProgress || p == Unreadable ::
                w.records == old(w.records)[id := Record(operation, p)])
      ensures s.Done? ==>
              && id !in old(w.records) && w.records == old(w.records)[id := Record(operation, InProgress)]
              && env.faults == old(env.faults)
      ensures env.faults >= old(env.faults)
      ensures !s.Done? ==> env.faults > old(env.faults) || id in old(w.records)
      ensures s.Crashed? ==> env.faults > old(env.faults)
      ensures env.reliable ==> !s.Crashed? && env.faults == old(env.faults)
    {
      s := env.Attempt();
      if s.IsFailure() {
        return;
      }
      if id in w.records {
        return Failed;
      }
      AdmitTruthful(w, id, Record(operation, InProgress), h);
      AdmitTruthful(w, id, Record(operation, Unreadable), h);
      h := Forgotten(h, id);
      s := env.Attempt();
      if s.Done? {
        w := w.(records := w.records[id := Record(operation, InProgress)]);
      } else {
        if * {
          w := w.(records := w.records[id := Record(operation, Unreadable)]);
        } else if * {
          w := w.(records := w.records[id := Record(operation, InProgress)]);
        }
        return;
      }
      :- env.Attempt();
    }

    /** The checkpoint of a finished request goes. */
    method Forget(id: Id) returns (s: Status)
      requires env.alive
      requires Valid() && id in w.checkpoints && Finished(w, id)
      modifies this, env
      ensures env.alive <==> !s.Crashed?
      ensures Valid() && h == old(h).(stale := h.stale)
      ensures w == old(w) || w == old(w).(checkpoints := old(w.checkpoints) - {id})
      ensures s.Done? ==> w == old(w).(checkpoints := old(w.checkpoints) - {id}) && env.faults == old(env.faults)
      ensures s.Failed? ==> w == old(w)
      ensures !s.Done? ==> env.faults > old(env.faults)
      ensures env.reliable ==> s.Done?
    {
      ForgetTruthful(w, id, h);
      s := Atomic(w.(checkpoints := w.checkpoints - {id}));
      if id !in w.checkpoints {
        h := h.(stale := h.stale - {id});
      }
    }

    /** `prepare` up to its own checkpoint: those of finished requests go; one
        of an interrupted request, one without a readable record, and a file
        that is no checkpoint stop it. */
    method ClearCheckpoints() returns (s: Status)
      requires env.alive
      requires Valid()
      modifies this, env
      ensures env.alive <==> !s.Crashed?
      ensures Valid() && h == old(h).(stale := h.stale)
      ensures w == old(w).(checkpoints := w.checkpoints)
      ensures w.checkpoints.Keys <= old(w.checkpoints).Keys
      ensures forall m | m in old(w.checkpoints) && !Finished(old(w), m) :: m in w.checkpoints
      ensures s.Done? ==> Clear(old(w)) && w.checkpoints == map[] && env.faults == old(env.faults)
      ensures env.faults >= old(env.faults)
      ensures !s.Done? ==> env.faults > old(env.faults) || !Clear(old(w))
      ensures s.Crashed? ==> env.faults > old(env.faults)
      ensures env.reliable ==> !s.Crashed? && env.faults == old(env.faults)
    {
      s := env.Attempt();
      if s.IsFailure() {
        return;
      }
      var rest := w.checkpoints.Keys;
      while rest != {}
        invariant Valid() && h == old(h).(stale := h.stale) && w == old(w).(checkpoints := w.checkpoints)
        invariant w.checkpoints.Keys == rest <= old(w.checkpoints).Keys && env.alive
        invariant forall m | m in old(w.checkpoints) && m !in rest :: Finished(old(w), m)
        invariant env.faults == old(env.faults)
        decreases |rest|
      {
        if w.strays != {} {
          if * {
            return Failed;
          }
        }
        var m :| m in rest;
        :- env.Attempt();
        if !Finished(w, m) {
          return Failed;
        }
        :- Forget(m);
        rest := rest - {m};
      }
      return if w.strays == {} then Done else Failed;
    }

    /** The checkpoint is written beside its name and renamed; a failure can
        leave the file it was written to. */
    method WriteCheckpoint(c: Checkpoint) returns (s: Status)
      requires env.alive
      requires Valid() && Open(w, c.id) && w.checkpoints == map[]
      requires Matches(c, c.id, w.records[c.id].operation) && c.previous == w.current
      modifies `w, env
      ensures env.alive <==> !s.Crashed?
      ensures Valid()
      ensures w == old(w) || w == old(w).(strays := old(w.strays) + {c.id}) || w == old(w).(checkpoints := map[c.id := c])
      ensures s.Done? ==> w == old(w).(checkpoints := map[c.id := c]) && env.faults == old(env.faults)
      ensures s.Failed? ==> w.checkpoints == map[]
      ensures !s.Done? ==> env.faults > old(env.faults)
      ensures env.reliable ==> s.Done?
    {
      CheckpointTruthful(w, c, h);
      StrayTruthful(w, w.releases, w.strays + {c.id}, w.links, h);
      s := env.Attempt();
      if s.Done? {
        w := w.(checkpoints := map[c.id := c]);
      } else if * {
        w := w.(strays := w.strays + {c.id});
      } else if s.Crashed? {
        if * {
          w := w.(checkpoints := map[c.id := c]);
        }
      }
    }

    /** `prepare`. */
    method Prepare(id: Id, target: Id) returns (s: Status)
      requires env.alive
      requires Valid() && Open(w, id) && (id in w.checkpoints ==> id in h.stale)
      requires w.records[id].operation.Deploy? ==> target == id
      modifies this, env
      ensures env.alive <==> !s.Crashed?
      ensures Valid() && h == old(h).(stale := h.stale)
      ensures w == old(w).(checkpoints := w.checkpoints, strays := w.strays) && old(w.strays) <= w.strays
      ensures forall m | m in old(w.checkpoints) && !Finished(old(w), m) :: m in w.checkpoints
      ensures w.checkpoints.Keys <= old(w.checkpoints).Keys + {id}
      ensures s.Done? ==>
              var operation := w.records[id].operation;
              && Clear(old(w)) && w.strays == {} && h.stale == {}
              && w.checkpoints == map[id := Checkpoint(id, operation, target, w.current, operation.Deploy?)]
              && env.faults == old(env.faults)
      ensures env.faults >= old(env.faults)
      ensures !s.Done? ==> env.faults > old(env.faults) || !Clear(old(w))
      ensures s.Crashed? ==> env.faults > old(env.faults)
      ensures env.reliable ==> !s.Crashed? && env.faults == old(env.faults)
    {
      s := ClearCheckpoints();
      if s.IsFailure() {
        return;
      }
      :- env.Attempt();
      var operation := w.records[id].operation;
      s := WriteCheckpoint(Checkpoint(id, operation, target, w.current, operation.Deploy?));
    }

    /** `activate`: a new link under a name of its own, renamed over `current`. A
        name that is already taken stops it. */
    method Activate(id: Id) returns (s: Status)
      requires env.alive
      requires Valid() && Blocks(w, id) && id !in h.stale && id !in h.switched
      modifies this, env
      ensures env.alive <==> !s.Crashed?
      ensures Valid() && h.stale == old(h).stale
      ensures var target := old(w.checkpoints)[id].target;
              && w == old(w).(current := w.current, links := w.links)
              && (w.current == old(w.current) || (w.current == Some(target) && target !in old(w.links)))
              && (w.links == old(w.links) || w.links == old(w.links) + {target})
              && (s.Done? ==>
                    id in h.switched && w.current == Some(target) && target !in w.links && env.faults == old(env.faults))
              && (!s.Done? ==> env.faults > old(env.faults) || target in old(w.links))
      ensures s.Failed? ==> w.current == old(w.current) && id !in h.switched && id !in h.effective
      ensures env.faults >= old(env.faults)
      ensures s.Crashed? ==> env.faults > old(env.faults)
      ensures env.reliable ==> !s.Crashed? && env.faults == old(env.faults)
    {
      var c := w.checkpoints[id];
      s := env.Attempt();
      if s.IsFailure() {
        return;
      }
      if c.target in w.links {
        return Failed;
      }
      SwitchTruthful(w, id, h);
      StrayTruthful(w, w.releases, w.strays, w.links + {c.target}, h);
      s := env.Attempt();
      if s.Done? {
        w, h := w.(current := Some(c.target)), Renamed(c, h);
      } else if * {
        w := w.(links := w.links + {c.target});
      } else if s.Crashed? {
        if * {
          w, h := w.(current := Some(c.target)), Renamed(c, h);
        }
      }
    }

    /** Saving the record of a finished request. */
    method Finish(id: Id, progress: Progress) returns (s: Status)
      requires env.alive
      requires Valid() && Open(w, id)
      requires (progress.Committed? && (id in h.switched || id in h.misjudged)) || (progress.Abandoned? && id !in h.effective)
      modifies `w, env
      ensures env.alive <==> !s.Crashed?
      ensures Valid()
      ensures w == old(w).(records := w.records)
      ensures w.records == old(w.records) || w.records == old(w.records)[id := old(w.records)[id].(progress := progress)]
      ensures s.Done? ==> w.records[id].progress == progress && env.faults == old(env.faults)
      ensures s.Failed? ==> w == old(w)
      ensures !s.Done? ==> env.faults > old(env.faults)
      ensures env.reliable ==> s.Done?
    {
      FinishTruthful(w, id, progress, h);
      s := Atomic(w.(records := w.records[id := w.records[id].(progress := progress)]));
    }

    /** A finished record goes. */
    method Drop(id: Id) returns (s: Status)
      requires env.alive
      requires Valid() && Finished(w, id)
      modifies this, env
      ensures env.alive <==> !s.Crashed?
      ensures Valid() && h == old(h).(stale := h.stale)
      ensures w == old(w) || w == old(w).(records := old(w.records) - {id})
      ensures s.Done? ==> w == old(w).(records := old(w.records) - {id}) && env.faults == old(env.faults)
      ensures !s.Done? ==> env.faults > old(env.faults)
      ensures env.reliable ==> s.Done?
    {
      DropTruthful(w, id, h);
      s := Atomic(w.(records := w.records - {id}));
      if id !in w.records && id in w.checkpoints {
        h := h.(stale := h.stale + {id});
      }
    }

    /** One record that is finished and old enough goes, after its checkpoint,
        if that is seen. */
    method SweepOne(id: Id, sweep: Sweep) returns (s: Status)
      requires env.alive
      requires Valid() && Finished(w, id) && id in sweep.expired
      modifies this, env
      ensures env.alive <==> !s.Crashed?
      ensures Valid() && h == old(h).(stale := h.stale)
      ensures w == old(w).(records := w.records, checkpoints := w.checkpoints)
      ensures forall j | j != id :: SameAt(old(w), w, j)
      ensures SweptSome(old(w), w, sweep, id)
      ensures env.faults == old(env.faults) ==> s.Done? && SweptAt(old(w), w, sweep, id)
      ensures env.faults >= old(env.faults)
      ensures env.reliable ==> env.faults == old(env.faults)
    {
      s := Done;
      if id in w.checkpoints && id !in sweep.blind {
        s := Forget(id);
      }
      if s.Done? {
        s := Drop(id);
      }
    }

    method SweepNext(id: Id, sweep: Sweep, ghost start: World, ghost rest: set<Id>) returns (s: Status)
      requires env.alive
      requires Valid() && IsPartlySwept(start, w, sweep, rest + {id}) && id !in rest
      modifies this, env
      ensures env.alive <==> !s.Crashed?
      ensures Valid() && h == old(h).(stale := h.stale)
      ensures IsPartlySwept(start, w, sweep, rest)
      ensures env.faults >= old(env.faults)
      ensures env.faults == old(env.faults) ==> s.Done?
      ensures env.faults == old(env.faults) && IsFullySweptBut(start, old(w), sweep, rest + {id}) ==>
                IsFullySweptBut(start, w, sweep, rest)
      ensures env.reliable ==> env.faults == old(env.faults)
    {
      if Finished(w, id) && id in sweep.expired {
        s := SweepOne(id, sweep);
        SweptStep(start, old(w), w, sweep, id, rest);
      } else {
        SweptSkip(start, w, sweep, id, rest);
        s := Done;
      }
    }

    /** `prune_completed`. */
    method Prune(sweep: Sweep) returns (s: Status)
      requires env.alive
      requires Valid()
      modifies this, env
      ensures env.alive <==> !s.Crashed?
      ensures Valid() && h == old(h).(stale := h.stale)
      ensures IsSwept(old(w), w, sweep)
      ensures env.faults == old(env.faults) ==> s.Done? && IsFullySwept(old(w), w, sweep)
      ensures env.faults >= old(env.faults)
      ensures env.reliable ==> s.Done? && env.faults == old(env.faults)
    {
      var rest := w.records.Keys;
      SweptStart(w, sweep);
      while rest != {}
        invariant Valid() && h == old(h).(stale := h.stale)
        invariant IsPartlySwept(old(w), w, sweep, rest) && env.alive
        invariant env.faults >= old(env.faults)
        invariant env.faults == old(env.faults) ==> IsFullySweptBut(old(w), w, sweep, rest)
        invariant env.reliable ==> env.faults == old(env.faults)
        decreases |rest|
      {
        var m :| m in rest;
        assert rest == (rest - {m}) + {m};
        rest := rest - {m};
        s := SweepNext(m, sweep, old(w), rest);
        if s.Crashed? {
          return;
        }
      }
      SweptEnd(old(w), w, sweep);
      return Done;
    }

    /** `fail`: recording the failure is attempted, not required. */
    method Abandon(id: Id) returns (a: Answer)
      requires env.alive
      requires Valid() && Open(w, id) && id !in h.effective
      modifies `w, env
      ensures env.alive <==> !a.Died?
      ensures Valid() && w == old(w).(records := w.records) && w.records.Keys == old(w.records).Keys
      ensures forall j | j != id :: Lookup(w.records, j) == Lookup(old(w.records), j)
      ensures a.Refused? || a.Died?
      ensures env.faults >= old(env.faults)
      ensures env.faults == old(env.faults) ==>
                a.Refused? && w.records == old(w.records)[id := old(w.records)[id].(progress := Abandoned)]
      ensures env.reliable ==> env.faults == old(env.faults) && a.Refused? && Finished(w, id)
    {
      var s := Finish(id, Abandoned);
      return if s.Crashed? then Died else Refused;
    }

    /** `staging::prepare` and `resolve_retained_release`, up to the validation:
        a new directory and what is fetched into it, or one that is there. */
    method Stage(operation: Operation, target: Id, tip: bool) returns (s: Status)
      requires env.alive
      requires Valid()
      modifies `w, env
      ensures env.alive <==> !s.Crashed?
      ensures Valid() && w == old(w).(releases := w.releases)
      ensures w.releases == old(w.releases) ||
              (operation.Deploy? && target !in old(w.releases) && target in w.releases &&
               w.releases == old(w.releases)[target := w.releases[target]])
      ensures s.Done? ==> w.releases == Staged(old(w.releases), operation, target)
      ensures s.Done? ==> Lookup(w.releases, target) == Some(true) && CanStage(old(w), operation, target, tip)
      ensures env.faults >= old(env.faults) && (s.Crashed? ==> env.faults > old(env.faults))
      ensures env.faults == old(env.faults) ==> (s.Done? <==> CanStage(old(w), operation, target, tip))
      ensures env.reliable ==> env.faults == old(env.faults)
    {
      s := env.Attempt();
      if s.IsFailure() {
        return;
      }
      if operation.Deploy? {
        if !tip || target in w.releases {
          return Failed;
        }
        StrayTruthful(w, w.releases[target := false], w.strays, w.links, h);
        :- Atomic(w.(releases := w.releases[target := false]));
        StrayTruthful(w, w.releases[target := true], w.strays, w.links, h);
        :- Atomic(w.(releases := w.releases[target := true]));
      }
      :- env.Attempt();
      return if Lookup(w.releases, target) == Some(true) then Done else Failed;
    }

    /** From the checkpoint on: identity, release and link. */
    method SwitchPrepared(id: Id, target: Id, tip: bool) returns (s: Status)
      requires env.alive
      requires Valid() && Blocks(w, id) && w.checkpoints[id].target == target
      requires h.stale == {} && id !in h.switched && id !in h.effective
      modifies this, env
      ensures env.alive <==> !s.Crashed?
      ensures Valid() && h.stale == {} && Blocks(w, id)
      ensures w == old(w).(current := w.current, releases := w.releases, links := w.links)
      ensures w.current == old(w.current) || (w.current == Some(target) && target !in old(w.links))
      ensures old(w.links) <= w.links
      ensures old(w.releases).Keys <= w.releases.Keys
      ensures w.current != old(w.current) ==> target in w.releases
      ensures s.Done? ==>
              && id in h.switched && w.current == Some(target) && target in w.releases && target !in old(w.links)
              && CanStage(old(w), old(w.records)[id].operation, target, tip)
              && w.links == old(w.links) && w.releases == Staged(old(w.releases), old(w.records)[id].operation, target)
      ensures s.Failed? ==> w.current == old(w.current) && id !in h.switched && id !in h.effective
      ensures env.faults >= old(env.faults) && (s.Crashed? ==> env.faults > old(env.faults))
      ensures env.faults == old(env.faults) ==>
                (s.Done? <==> target !in old(w.links) && CanStage(old(w), old(w.records)[id].operation, target, tip))
      ensures env.reliable ==> env.faults == old(env.faults)
    {
      s := env.Attempt();
      if s.IsFailure() {
        return;
      }
      :- Stage(w.records[id].operation, target, tip);
      s := Activate(id);
    }

    /** Deploy and rollback from the admitted request on. */
    method SwitchAdmitted(id: Id, target: Id, tip: bool) returns (a: Answer)
      requires env.alive
      requires Valid() && Open(w, id) && (id in w.checkpoints ==> id in h.stale)
      requires w.records[id].operation.Deploy? ==> target == id
      modifies this, env
      ensures env.alive <==> !a.Died?
      ensures Valid()
      ensures w.current == old(w.current) ||
              (w.current == Some(target) && target in w.releases && Clear(old(w)) && target !in old(w.links))
      ensures a.Switched? ==>
              && Clear(old(w)) && target !in old(w.links)
              && CanStage(old(w), old(w.records)[id].operation, target, tip)
              && IsSwitched(old(w), w, id, old(w.records)[id].operation, target)
      ensures a.RecordLost? ==> w.current == Some(target) && Blocks(w, id)
      ensures a.Refused? ==> w.current == old(w.current)
      ensures !a.Reconciled?
      ensures StaysBut(old(w), w, id) && old(w.releases).Keys <= w.releases.Keys && w.records.Keys == old(w.records).Keys
      ensures w.checkpoints.Keys <= old(w.checkpoints).Keys + {id}
      ensures forall j | j != id :: Lookup(w.records, j) == Lookup(old(w.records), j)
      // a refusal is recorded
      ensures env.faults == old(env.faults) && !a.Switched? ==>
                a.Refused? && Lookup(w.records, id) == Some(old(w.records)[id].(progress := Abandoned))
      ensures env.faults >= old(env.faults)
      ensures env.faults == old(env.faults) ==>
                (a.Switched? <==>
                  Clear(old(w)) && target !in old(w.links) && CanStage(old(w), old(w.records)[id].operation, target, tip))
      ensures env.reliable ==> env.faults == old(env.faults) && (a.Switched? || a.Refused?)
    {
      assert TruthfulRecord(w, id, h);
      var s := Prepare(id, target);
      if s.Done? {
        s := SwitchPrepared(id, target, tip);
      }
      if s.Crashed? {
        return Died;
      }
      if s.Failed? {
        a := Abandon(id);
        return;
      }
      s := Finish(id, Committed);
      return if s.Done? then Switched else if s.Failed? then RecordLost else Died;
    }

    /** Deploy and rollback after the sweep. */
    method SwitchSwept(id: Id, operation: Operation, target: Id, tip: bool) returns (a: Answer)
      requires env.alive
      requires Valid() && (operation.Deploy? ==> target == id)
      modifies this, env
      ensures env.alive <==> !a.Died?
      ensures Valid()
      ensures w.current == old(w.current) ||
              (w.current == Some(target) && target in w.releases && Clear(old(w)) && target !in old(w.links))
      ensures a.Switched? ==> IsSwitched(old(w), w, id, operation, target)
      ensures a.RecordLost? ==> w.current == Some(target) && Blocks(w, id)
      ensures a.Refused? ==> w.current == old(w.current)
      ensures !a.Reconciled?
      ensures StaysBut(old(w), w, id) && (id in old(w.records) ==> w == old(w))
      ensures old(w.releases).Keys <= w.releases.Keys && w.records.Keys <= old(w.records).Keys + {id}
      ensures w.checkpoints.Keys <= old(w.checkpoints).Keys + {id}
      ensures forall j | j != id :: Lookup(w.records, j) == Lookup(old(w.records), j)
      ensures env.faults >= old(env.faults)
      ensures env.faults == old(env.faults) ==> IsQuietSwitch(old(w), id, operation, target, tip, a, w)
      ensures env.reliable ==> env.faults == old(env.faults) && (a.Switched? || a.Refused?)
    {
      var s := Admit(id, operation);
      if s.IsFailure() {
        return if s.Crashed? then Died else Refused;
      }
      AdmittedClear(old(w), id, Record(operation, InProgress));
      a := SwitchAdmitted(id, target, tip);
      StaysThrough(old(w), old(w), Record(operation, InProgress), w, id);
    }

    /** `site.deploy` and `site.rollback`, until the lock is dropped. */
    method Switch(id: Id, operation: Operation, release: Id, tip: bool, sweep: Sweep) returns (a: Answer)
      requires env.alive
      requires Valid()
      modifies this, env
      ensures env.alive <==> !a.Died?
      ensures Valid()
      // the link moves to the requested release or stays
      ensures var target := RequestTarget(id, operation, release);
              && (w.current == old(w.current) ||
                  (w.current == Some(target) && target in w.releases && Clear(old(w)) && target !in old(w.links)))
              && (a.Switched? ==> IsSwitched(old(w), w, id, operation, target))
              && (a.RecordLost? ==> w.current == Some(target) && Blocks(w, id))
              && (a.Refused? ==> w.current == old(w.current))
      ensures !a.Reconciled?
      // no release goes, and only this request is recorded
      ensures old(w.releases).Keys <= w.releases.Keys && (IsServed(old(w)) ==> IsServed(w))
      ensures w.records.Keys <= old(w.records).Keys + {id}
      // what stops a request stops every later one
      ensures StaysBut(old(w), w, id) && forall m | Blocks(old(w), m) :: Blocks(w, m)
      // and without a fault a request goes through exactly when nothing stops it,
      // and is closed: what blocks afterwards has blocked before
      ensures env.faults >= old(env.faults)
      ensures env.faults == old(env.faults) ==>
                IsQuietStep(old(w), Request(id, operation, release, tip, sweep), Some(a), w)
      ensures env.reliable ==> env.faults == old(env.faults) && (a.Switched? || a.Refused?)
    {
      var s := Prune(sweep);
      ghost var swept := w;
      SweptStays(old(w), swept, swept, sweep, id);
      if s.Crashed? {
        return Died;
      }
      a := SwitchSwept(id, operation, RequestTarget(id, operation, release), tip);
      SweptStays(old(w), swept, w, sweep, id);
      if env.faults == old(env.faults) {
        QuietSwept(old(w), swept, id, operation, release, tip, sweep, a, w);
      }
    }

    /** `prune_old_releases`: it runs after the lock is dropped, so the link may
        point elsewhere by then. A removal that fails can leave part of a release. */
    method Retain(active: Id, oldest: set<Id>) returns (s: Status)
      requires env.alive
      requires Valid()
      modifies `w, env
      ensures env.alive <==> !s.Crashed?
      ensures Valid() && w == old(w).(releases := w.releases)
      ensures forall id | id in old(w.releases) && (id == active || id !in oldest) ::
                id in w.releases && w.releases[id] == old(w.releases)[id]
      ensures w.releases.Keys <= old(w.releases).Keys
      ensures env.faults >= old(env.faults)
      ensures env.faults == old(env.faults) ==> s.Done? && w.releases == old(w.releases) - (oldest - {active})
      ensures env.reliable ==> env.faults == old(env.faults)
      // the link still points at a release exactly if that one is new enough or the request's own
      ensures env.faults == old(env.faults) && IsServed(old(w)) && w.current.Some? ==>
                (IsServed(w) <==> w.current.value == active || w.current.value !in oldest)
    {
      ghost var all := oldest - {active};
      var rest := oldest - {active};
      while rest != {}
        invariant Valid() && w == old(w).(releases := w.releases)
        invariant env.alive && rest <= all && w.releases.Keys <= old(w.releases).Keys
        invariant forall id | id in old(w.releases) && (id == active || id !in oldest) ::
                    id in w.releases && w.releases[id] == old(w.releases)[id]
        invariant env.faults >= old(env.faults)
        invariant env.faults == old(env.faults) ==> w.releases == old(w.releases) - (all - rest)
        invariant env.reliable ==> env.faults == old(env.faults)
        decreases |rest|
      {
        var id :| id in rest;
        OneLess(old(w.releases), all, rest, id);
        rest := rest - {id};
        s := RemoveRelease(id);
        if s.Crashed? {
          return;
        }
      }
      return Done;
    }

    /** One release goes as a whole, stays, or loses a part. */
    method RemoveRelease(id: Id) returns (s: Status)
      requires env.alive
      requires Valid()
      modifies `w, env
      ensures env.alive <==> !s.Crashed?
      ensures Valid() && w == old(w).(releases := w.releases)
      ensures forall j | j != id && j in old(w.releases) :: j in w.releases && w.releases[j] == old(w.releases)[j]
      ensures w.releases.Keys <= old(w.releases).Keys
      ensures env.faults >= old(env.faults) && (s.Crashed? ==> env.faults > old(env.faults))
      ensures env.faults == old(env.faults) ==> w.releases == old(w.releases) - {id}
      ensures env.reliable ==> env.faults == old(env.faults)
    {
      s := Done;
      if id in w.releases {
        StrayTruthful(w, w.releases - {id}, w.strays, w.links, h);
        StrayTruthful(w, w.releases[id := false], w.strays, w.links, h);
        s := env.Attempt();
        if s.Done? {
          w := w.(releases := w.releases - {id});
        } else if * {
          w := w.(releases := w.releases[id := false]);
        }
      }
    }

    /** The site's own user changes a release. */
    method Change(release: Id, valid: bool)
      requires Valid()
      modifies `w
      ensures Valid() && w == old(w).(releases := w.releases) && w.releases.Keys == old(w.releases).Keys
      ensures w.releases == if release in old(w.releases) then old(w.releases)[release := valid] else old(w.releases)
    {
      if release in w.releases {
        StrayTruthful(w, w.releases[release := valid], w.strays, w.links, h);
        w := w.(releases := w.releases[release := valid]);
      }
    }

    /** `site.recoverDeployment`: records what the link and the checkpoint say. */
    method Recover(id: Id) returns (a: Answer)
      requires env.alive
      requires Valid()
      modifies this, env
      ensures env.alive <==> !a.Died?
      ensures Valid() && h == old(h).(misjudged := h.misjudged)
      // it never moves the link and never touches another request
      ensures w == old(w).(records := w.records)
      ensures forall j | j != id :: Lookup(w.records, j) == Lookup(old(w.records), j)
      // the verdict is whether the request had an effect, unless the checkpoint
      // is an older request's and says that one had
      ensures a.Reconciled? ==> id in w.records && w.records[id].progress == a.progress && !Open(w, id)
      ensures a.Reconciled? && Open(old(w), id) ==>
                && id in w.checkpoints
                && ((a.progress.Committed? <==> id in h.effective) <==> !(id in h.stale && SaysSwitched(w, id)))
      // and only a checkpoint of the request's own operation gives one
      ensures a.Reconciled? && Open(old(w), id) ==>
                var c, operation := w.checkpoints[id], w.records[id].operation;
                && c.id == id && c.operation == operation
                && (if operation.Deploy? then c.hasRevision && c.target == id else !c.hasRevision)
      ensures !Open(old(w), id) ==> w == old(w)
      ensures forall m | Open(w, m) :: Open(old(w), m)
      ensures a.Refused? ==> w == old(w)
      // and without a fault it is what the link and the checkpoint say
      ensures env.faults >= old(env.faults)
      ensures env.faults == old(env.faults) ==> a == Verdict(old(w), id) && w.records == Judged(old(w), id)
      ensures env.faults == old(env.faults) && Blocks(old(w), id) && id !in h.stale ==> a.Reconciled?
    {
      var s := env.Attempt();
      if s.IsFailure() {
        return if s.Crashed? then Died else Refused;
      }
      if id !in w.records || w.records[id].progress.Unreadable? {
        return Refused;
      }
      if !Open(w, id) {
        return Reconciled(w.records[id].progress);
      }
      if id !in w.checkpoints {
        return Refused;
      }
      var c := w.checkpoints[id];
      if id !in h.stale {
        VerdictIsTrue(w, id, h);
      } else {
        assert TruthfulRecord(w, id, h);
      }
      if !Matches(c, id, w.records[id].operation) {
        return Refused;
      }
      s := env.Attempt();
      if s.IsFailure() {
        return if s.Crashed? then Died else Refused;
      }
      var verdict;
      if SaysSwitched(w, id) {
        verdict := Committed;
        h := h.(misjudged := h.misjudged + (if id in h.stale then {id} else {}));
      } else if w.current == c.previous {
        verdict := Abandoned;
      } else {
        return Refused;
      }
      s := Finish(id, verdict);
      if s.IsFailure() {
        return if s.Crashed? then Died else Refused;
      }
      return Reconciled(verdict);
    }

    /** One event, and what it is answered. */
    method Handle(e: Event) returns (a: Option<Answer>)
      requires env.alive
      requires Valid()
      modifies this, env
      ensures env.alive <==> a != Some(Died)
      ensures Valid()
      ensures w.current == old(w.current) || w.current == Target(e)
      ensures forall m | Blocks(old(w), m) && e != Recovery(m) :: Blocks(w, m)
      ensures (exists m :: Blocks(old(w), m)) || old(w.strays) != {} ==> w.current == old(w.current)
      ensures old(w.strays) <= w.strays
      ensures IsServed(old(w)) && !e.Retention? ==> IsServed(w)
      ensures env.faults >= old(env.faults)
      ensures env.faults == old(env.faults) ==> IsQuietStep(old(w), e, a, w)
    {
      a := None;
      match e
      case Request(id, operation, release, tip, sweep) =>
        var answer := Switch(id, operation, release, tip, sweep);
        a := Some(answer);
      case Recovery(id) =>
        var answer := Recover(id);
        a := Some(answer);
        assert forall m | m != id && Blocks(old(w), m) :: Lookup(w.records, m) == Lookup(old(w.records), m);
      case Retention(active, oldest) =>
        var s := Retain(active, oldest);
        a := if s.Crashed? then Some(Died) else None;
      case Edit(release, valid) =>
        Change(release, valid);
    }

    /** Any run of requests and recoveries, with any number of deaths. */
    method Serve(events: seq<Event>) returns (answers: seq<Option<Answer>>, ghost worlds: seq<World>)
      requires Valid()
      modifies this, env
      ensures Valid()
      ensures |answers| == |events| && |worlds| == |events| + 1 && worlds[0] == old(w) && worlds[|events|] == w
      // the link only ever points where some request wanted it
      ensures w.current == old(w.current) || exists e | e in events :: w.current == Target(e)
      // it stays from an interrupted request on until that one is reconciled
      ensures forall m | Blocks(old(w), m) && Recovery(m) !in events :: w.current == old(w.current) && Blocks(w, m)
      // and for good once a checkpoint could not be renamed into place
      ensures old(w.strays) != {} ==> w.current == old(w.current) && w.strays != {}
      // and it points at a release that is there, as long as no retention runs
      ensures IsServed(old(w)) && (forall e | e in events :: !e.Retention?) ==> IsServed(w)
      // without a fault every request is closed, as its answer says
      ensures env.faults >= old(env.faults)
      ensures env.faults == old(env.faults) ==>
                && (forall i | 0 <= i < |events| :: IsQuietStep(worlds[i], events[i], answers[i], worlds[i + 1]))
                && (forall m | Open(w, m) :: Open(old(w), m))
                && (forall m | Blocks(w, m) :: Blocks(old(w), m))
    {
      answers, worlds := [], [w];
      for i := 0 to |events|
        invariant Valid()
        invariant |answers| == i && |worlds| == i + 1 && worlds[0] == old(w) && worlds[i] == w
        invariant w.current == old(w.current) || exists e | e in events :: w.current == Target(e)
        invariant forall m | Blocks(old(w), m) && Recovery(m) !in events :: w.current == old(w.current) && Blocks(w, m)
        invariant old(w.strays) != {} ==> w.current == old(w.current) && w.strays != {}
        invariant IsServed(old(w)) && (forall e | e in events :: !e.Retention?) ==> IsServed(w)
        invariant env.faults >= old(env.faults)
        invariant env.faults == old(env.faults) ==>
                    && (forall k | 0 <= k < i :: IsQuietStep(worlds[k], events[k], answers[k], worlds[k + 1]))
                    && (forall m | Open(w, m) :: Open(old(w), m))
                    && (forall m | Blocks(w, m) :: Blocks(old(w), m))
      {
        assert events[i] in events;
        assert forall m | Recovery(m) !in events :: events[i] != Recovery(m);
        env.Restart();
        var a := Handle(events[i]);
        answers, worlds := answers + [a], worlds + [w];
      }
    }
  }

  // ---- requests that cannot go through ------------------------------------

  const NO_SWEEP := Sweep({}, {})

  /** A file left by one failed checkpoint stops every deploy and rollback, on a
      disk that works again. */
  method StrayCheckpointStops(left: Id, releases: map<Id, bool>, id: Id, operation: Operation, release: Id) returns (a: Answer)
    ensures a.Refused?
  {
    var env := new Environment(true);
    var site := new Site(env, None, releases, {left}, {});
    a := site.Switch(id, operation, release, true, NO_SWEEP);
  }

  /** A link left by one failed activation stops every rollback to its release. */
  method StrayLinkStops(releases: map<Id, bool>, id: Id, release: Id) returns (a: Answer)
    ensures a.Refused?
  {
    var env := new Environment(true);
    var site := new Site(env, None, releases, {}, {release});
    a := site.Switch(id, Rollback, release, true, NO_SWEEP);
  }

  /** One checkpoint that a sweep does not see outlives its record and stops
      every later request. */
  method MissedCheckpointStops() returns (first: Answer, second: Answer, third: Answer)
    ensures first.Switched? && second.Refused? && third.Refused?
  {
    var env := new Environment(true);
    var site := new Site(env, None, map[], {}, {});
    first := site.Switch("a", Deploy, "", true, NO_SWEEP);
    var sweep := Sweep({"a"}, {"a"});
    assert "a" in Missed(site.w, sweep);
    second := site.Switch("b", Deploy, "", true, sweep);
    assert "a" in site.w.checkpoints && !Finished(site.w, "a");
    third := site.Switch("c", Deploy, "", true, NO_SWEEP);
  }

  /** A deploy goes through, a rollback to an old release goes through, and then
      the retention of the deploy removes what the link points at. */
  method ServedReleaseRetired() returns (first: Answer, second: Answer, current: Option<Id>, releases: map<Id, bool>)
    ensures first.Switched? && second.Switched? && current == Some("o") && "o" !in releases
  {
    var env := new Environment(true);
    var site := new Site(env, Some("o"), map["o" := true], {}, {});
    first := site.Switch("a", Deploy, "", true, NO_SWEEP);
    second := RollBackTo(site, "b", "o");
    var _ := site.Retain("a", {"o"});
    current, releases := site.w.current, site.w.releases;
  }

  /** A reliable rollback to a good release, with nothing in its way. */
  method RollBackTo(site: Site, id: Id, release: Id) returns (a: Answer)
    requires site.env.alive && site.env.reliable && site.Valid()
    requires Clear(site.w) && id !in site.w.records && release !in site.w.links
    requires release in site.w.releases && site.w.releases[release]
    modifies site, site.env
    ensures a.Switched? && site.Valid() && site.w.current == Some(release)
    ensures site.env.alive && site.env.reliable && site.env.faults == old(site.env.faults)
  {
    assert Missed(site.w, NO_SWEEP) == {};
    a := site.Switch(id, Rollback, release, true, NO_SWEEP);
  }
}
