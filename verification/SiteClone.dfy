/** Copying a Drupal site over a staging site (src/drupal_clone.rs) and putting
    the staging site back after an interruption (src/site_reconcile.rs), as the
    steps the engine takes on the disk and on the database server. Every step
    can fail, and the process can die before, during or after every step. */
module SiteClone {
  import opened Steps
  import opened Text
  import opened CloneStates
  import BackupTab
  import PhpSettings

  /** The engine's state for one staging site. */
  class Scope {
    const env: Environment
    const place: Place
    var w: World
    /** The target and the databases after the last recorded clone, or before any. */
    ghost var settledTarget: Option<Site>
    ghost var settledDatabases: map<Name, Tables>
    /** Whether no recovery has lost them yet. */
    ghost var intact: bool

    constructor (env: Environment, place: Place, target: Option<Site>, others: map<Path, Site>,
                 databases: map<Name, Tables>)
      ensures Valid() && intact && this.env == env && this.place == place
      ensures w == World(Absent, target, others, map[], databases, map[], map[], map[])
    {
      this.env, this.place := env, place;
      w := World(Absent, target, others, map[], databases, map[], map[], map[]);
      settledTarget, settledDatabases, intact := target, databases, true;
    }

    /** A scope in which a clone of `target` and `databases` was interrupted. */
    constructor Interrupted(env: Environment, place: Place, w: World, ghost target: Option<Site>,
                            ghost databases: map<Name, Tables>)
      requires HasKeys(w) && IsKept(w, target, databases)
      ensures Valid() && intact && this.env == env && this.place == place
      ensures this.w == w && settledTarget == target && settledDatabases == databases
    {
      this.env, this.place, this.w := env, place, w;
      settledTarget, settledDatabases, intact := target, databases, true;
    }

    ghost predicate Valid()
      reads this
    {
      HasKeys(w) && (intact ==> IsKept(w, settledTarget, settledDatabases))
    }

    // ---- what the environment does ----------------------------------------

    /** A step that takes effect or not, such as a rename. */
    method Atomic(next: World) returns (s: Status)
      requires env.alive
      modifies `w, env
      ensures env.alive <==> !s.Crashed?
      ensures s.Done? ==> w == next && env.faults == old(env.faults)
      ensures s.Failed? ==> w == old(w)
      ensures s.Crashed? ==> w == old(w) || w == next
      ensures !s.Done? ==> env.faults > old(env.faults)
      ensures env.reliable ==> s.Done?
    {
      s := env.Attempt();
      if s.Done? {
        w := next;
      } else if s.Crashed? {
        if * {
          w := next;
        }
      }
    }

    /** A step that can stop half-way. */
    method Gradual(next: World, torn: World) returns (s: Status)
      requires env.alive
      modifies `w, env
      ensures env.alive <==> !s.Crashed?
      ensures s.Done? ==> w == next && env.faults == old(env.faults)
      ensures !s.Done? ==> (w == old(w) || w == torn || w == next) && env.faults > old(env.faults)
      ensures env.reliable ==> s.Done?
    {
      s := env.Attempt();
      if s.Done? {
        w := next;
      } else if * {
        w := next;
      } else if * {
        w := torn;
      }
    }

    /** `restore`: loads a dump into the database. A load that fails leaves the
        database in any state, or dropped. */
    method Load(database: Name, tables: Tables) returns (s: Status)
      requires env.alive
      modifies `w, env
      ensures env.alive <==> !s.Crashed?
      ensures w == old(w).(databases := w.databases)
      ensures SameBut(w.databases, old(w.databases), database)
      ensures s.Done? ==> w.databases == old(w.databases)[database := tables] && env.faults == old(env.faults)
      ensures !s.Done? ==> env.faults > old(env.faults)
      ensures env.reliable ==> s.Done?
    {
      var junk: Tables := *;
      var torn := w.databases[database := junk];
      if * {
        torn := w.databases - {database};
      }
      SameButUpdate(w.databases, database, tables);
      SameButUpdate(w.databases, database, junk);
      s := Gradual(w.(databases := w.databases[database := tables]), w.(databases := torn));
    }

    // ---- the steps of a clone ---------------------------------------------

    /** The recovery directory, its manifest, and the dump of the target's
        database; with evidence, what the marker says about the changes. */
    method TakeSnapshot(req: Request) returns (s: Status)
      requires env.alive
      requires req.id !in w.snapshots && req.id !in w.started
      modifies `w, env
      ensures env.alive <==> !s.Crashed?
      ensures w == old(w).(snapshots := w.snapshots, started := w.started)
      ensures SameBut(w.snapshots, old(w.snapshots), req.id) && SameBut(w.started, old(w.started), req.id)
      ensures req.id in w.snapshots ==> Lookup(w.databases, req.database) == Some(w.snapshots[req.id])
      ensures req.id in w.started ==> req.id in w.snapshots
      ensures !req.evidence ==> w.started == old(w.started)
      ensures s.Crashed? ==> env.faults > old(env.faults)
      ensures s.Done? ==> req.id in w.snapshots && env.faults == old(env.faults)
      ensures s.Done? ==> Lookup(w.started, req.id) == if req.evidence then Some(true) else None
      ensures env.faults >= old(env.faults)
      ensures !s.Done? ==> env.faults > old(env.faults) || req.database !in w.databases
      ensures env.reliable ==> env.faults == old(env.faults)
    {
      s := Dump(req);
      if s.Done? && req.evidence {
        s := RecordEvidence(req.id);
      }
    }

    /** The completed dump of the target's database. */
    method Dump(req: Request) returns (s: Status)
      requires env.alive && req.id !in w.snapshots
      modifies `w, env
      ensures env.alive <==> !s.Crashed?
      ensures w == old(w) || (req.database in w.databases &&
              w == old(w).(snapshots := old(w.snapshots)[req.id := w.databases[req.database]]))
      ensures SameBut(w.snapshots, old(w.snapshots), req.id)
      ensures s.Done? ==> req.id in w.snapshots && env.faults == old(env.faults)
      ensures env.faults >= old(env.faults) && (s.Crashed? ==> env.faults > old(env.faults))
      ensures !s.Done? ==> env.faults > old(env.faults) || req.database !in w.databases
      ensures env.reliable ==> env.faults == old(env.faults)
    {
      s := env.Attempt();
      if s.IsFailure() {
        return;
      }
      :- env.Attempt();
      :- env.Attempt();
      if req.database !in w.databases {
        return Failed;
      }
      SameButUpdate(w.snapshots, req.id, w.databases[req.database]);
      s := Atomic(w.(snapshots := w.snapshots[req.id := w.databases[req.database]]));
    }

    /** `record` and `mutation_started`. */
    method RecordEvidence(id: string) returns (s: Status)
      requires env.alive
      modifies `w, env
      ensures env.alive <==> !s.Crashed?
      ensures w == old(w).(started := w.started) && SameBut(w.started, old(w.started), id)
      ensures s.Done? ==> Lookup(w.started, id) == Some(true) && env.faults == old(env.faults)
      ensures !s.Done? ==> env.faults > old(env.faults)
      ensures env.reliable ==> s.Done?
    {
      s := env.Attempt();
      if s.IsFailure() {
        return;
      }
      SameButUpdate(w.started, id, false);
      :- Atomic(w.(started := w.started[id := false]));
      SameButUpdate(w.started, id, true);
      :- Atomic(w.(started := w.started[id := true]));
      s := env.Attempt();
    }

    /** The target moves away, if there is one. */
    method MoveAside(id: string) returns (s: Status, moved: bool)
      requires env.alive
      requires id !in w.saved
      modifies `w, env
      ensures env.alive <==> !s.Crashed?
      ensures w == old(w).(saved := w.saved, target := w.target)
      ensures SameBut(w.saved, old(w.saved), id)
      ensures if Moved(w, id).Some? then Moved(w, id) == old(w.target) && w.target.None? else w.target == old(w.target)
      ensures !s.Crashed? ==> moved == Moved(w, id).Some?
      ensures s.Done? ==> w.target.None? && Lookup(w.saved, id) == Some(old(w.target)) && env.faults == old(env.faults)
      ensures !s.Done? ==> env.faults > old(env.faults)
      ensures env.reliable ==> s.Done?
    {
      moved := false;
      :- Atomic(w.(saved := w.saved[id := None]));
      :- env.Attempt();
      if w.target.Some? {
        :- Atomic(w.(saved := w.saved[id := w.target], target := None));
        moved := true;
      }
      return Done, moved;
    }

    /** `append_overrides` for this copy. */
    method CopySettings(site: Site, req: Request) returns (text: Option<string>)
      ensures text.Some? <==> CanFollow(site, req.source)
      ensures text.Some? ==> SaysCopy(site.text.value, text.value, place.server, req)
    {
      if site.text.None? {
        return None;
      }
      var o := req.options;
      var overrides := PhpSettings.Overrides(req.database, o.user, o.password, place.server, o.salt, o.domain, req.source,
                                             o.blockMail);
      var appended := PhpSettings.AppendOverrides(site.text.value, overrides);
      PhpSettings.CopySettings(site.text.value, overrides, map[]);
      if !appended.Ok? {
        return None;
      }
      forall vars ensures SaysOn(site.text.value, appended.text, place.server, req, vars) {
        PhpSettings.CopySettings(site.text.value, overrides, vars);
      }
      return Some(appended.text);
    }

    /** The site with the copy's settings, and what Drush reports of it then. */
    method MakeCopy(source: Site, req: Request) returns (copy: Option<Site>)
      ensures copy.Some? <==> CanFollow(source, req.source)
      ensures copy.Some? ==> IsCopy(source, copy.value, place.server, req)
    {
      var text := CopySettings(source, req);
      if text.None? {
        return None;
      }
      ReportedIsCopy(source, text.value, place.server, req);
      var settings := Reported(source, text.value[|source.text.value|..]);
      return Some(source.(text := text, settings := settings));
    }

    /** The source's files take the place, with settings of their own. */
    method FillTarget(req: Request) returns (s: Status, created: bool)
      requires env.alive
      requires req.source in w.others
      modifies `w, env
      ensures env.alive <==> !s.Crashed?
      ensures w == old(w).(target := w.target)
      ensures s.Failed? && !created ==> w.target == old(w.target)
      ensures created ==> w.target.Some?
      ensures s.Done? ==>
              && created && w.target.Some? && IsCopy(w.others[req.source], w.target.value, place.server, req)
              && CanFollow(w.others[req.source], req.source) && env.faults == old(env.faults)
      ensures env.faults >= old(env.faults)
      ensures !s.Done? ==> env.faults > old(env.faults) || !CanFollow(w.others[req.source], req.source)
      ensures s.Crashed? ==> env.faults > old(env.faults)
      ensures env.reliable ==> env.faults == old(env.faults)
    {
      created := false;
      :- Atomic(w.(target := Some(EMPTY_SITE)));
      created := true;
      :- env.Attempt();
      var source := w.others[req.source];
      var partial: Site := *;
      :- Gradual(w.(target := Some(source)), w.(target := Some(partial)));
      s := WriteSettings(source, req);
    }

    /** The copy's settings are read, extended and replaced as a whole. */
    method WriteSettings(source: Site, req: Request) returns (s: Status)
      requires env.alive
      requires w.target == Some(source)
      modifies `w, env
      ensures env.alive <==> !s.Crashed?
      ensures w == old(w).(target := w.target) && w.target.Some?
      ensures s.Done? ==>
              && IsCopy(source, w.target.value, place.server, req) && CanFollow(source, req.source)
              && env.faults == old(env.faults)
      ensures env.faults >= old(env.faults)
      ensures !s.Done? ==> env.faults > old(env.faults) || !CanFollow(source, req.source)
      ensures s.Crashed? ==> env.faults > old(env.faults)
      ensures env.reliable ==> env.faults == old(env.faults)
    {
      s := env.Attempt();
      if s.IsFailure() {
        return;
      }
      var copy := MakeCopy(source, req);
      if copy.None? {
        return Failed;
      }
      s := ReplaceTarget(copy.value);
    }

    /** The site's settings are replaced at once, and its ownership repaired. */
    method ReplaceTarget(site: Site) returns (s: Status)
      requires env.alive
      requires w.target.Some?
      modifies `w, env
      ensures env.alive <==> !s.Crashed?
      ensures w == old(w).(target := w.target) && w.target.Some?
      ensures s.Done? ==> w.target.value == site
      ensures env.faults >= old(env.faults) && (s.Done? <==> env.faults == old(env.faults))
      ensures env.reliable ==> env.faults == old(env.faults)
    {
      s := Atomic(w.(target := Some(site)));
      if s.Done? {
        s := env.Attempt();
      }
    }

    /** The source's database is loaded over the target's. */
    method ReplaceDatabase(req: Request, source: Name) returns (s: Status, mutated: bool)
      requires env.alive
      requires req.database in w.databases
      modifies `w, env
      ensures env.alive <==> !s.Crashed?
      ensures w == old(w).(databases := w.databases)
      ensures SameBut(w.databases, old(w.databases), req.database)
      ensures !mutated ==> w == old(w)
      ensures mutated ==> source in old(w.databases)
      ensures s.Done? ==>
              && mutated && source in old(w.databases)
              && w.databases == old(w.databases)[req.database := old(w.databases)[req.database] + old(w.databases)[source]]
              && env.faults == old(env.faults)
      ensures env.faults >= old(env.faults)
      ensures !s.Done? ==> env.faults > old(env.faults) || source !in old(w.databases)
      ensures s.Crashed? ==> env.faults > old(env.faults)
      ensures env.reliable ==> env.faults == old(env.faults)
    {
      mutated := false;
      :- env.Attempt();
      if source !in w.databases {
        return Failed, false;
      }
      var dump := w.databases[source];
      :- env.Attempt();
      mutated := true;
      :- Load(req.database, w.databases[req.database] + dump);
      if req.evidence {
        :- env.Attempt();
      }
      return Done, true;
    }

    /** The copy's own Drush says whether the copy works on its database. */
    method Healthy(database: Name) returns (s: Status)
      requires env.alive
      modifies env
      ensures env.alive <==> !s.Crashed?
      ensures env.faults >= old(env.faults)
      ensures s.Done? ==> IsHealthy(w, place, database) && env.faults == old(env.faults)
      ensures !s.Done? ==> !IsHealthy(w, place, database) || env.faults > old(env.faults)
      ensures s.Crashed? ==> env.faults > old(env.faults)
      ensures env.reliable ==> env.faults == old(env.faults)
    {
      s := env.Attempt();
      if s.IsFailure() {
        return;
      }
      return if IsHealthy(w, place, database) then Done else Failed;
    }

    /** `drush sql:sanitize` in the copy: it rewrites whichever database the
        copy's settings name. */
    method Sanitize() returns (s: Status)
      requires env.alive
      requires w.target.Some? && w.target.value.settings.database in w.databases
      modifies `w, env
      ensures env.alive <==> !s.Crashed?
      ensures w == old(w).(databases := w.databases)
      ensures SameBut(w.databases, old(w.databases), w.target.value.settings.database)
      ensures w.target.value.settings.database in w.databases
      ensures s.Done? ==>
              var database := w.target.value.settings.database;
              && w.databases == old(w.databases)[database := place.sanitized(old(w.databases)[database])]
              && env.faults == old(env.faults)
      ensures !s.Done? ==> env.faults > old(env.faults)
      ensures env.reliable ==> s.Done?
    {
      var partial: Tables := *;
      var database := w.target.value.settings.database;
      var sanitized := place.sanitized(w.databases[database]);
      SameButUpdate(w.databases, database, sanitized);
      SameButUpdate(w.databases, database, partial);
      s := Gradual(w.(databases := w.databases[database := sanitized]), w.(databases := w.databases[database := partial]));
    }

    /** The copy must answer as itself before anything is sanitized. */
    method CheckCopy(req: Request) returns (s: Status)
      requires env.alive
      modifies `w, env
      ensures env.alive <==> !s.Crashed?
      ensures w == old(w).(databases := w.databases)
      ensures SameBut(w.databases, old(w.databases), req.database)
      ensures !req.sanitize ==> w == old(w)
      ensures s.Done? ==>
                && IsHealthy(old(w), place, req.database) && IsHealthy(w, place, req.database)
                && env.faults == old(env.faults)
      ensures s.Done? && req.sanitize ==>
                w.databases == old(w.databases)[req.database := place.sanitized(old(w.databases)[req.database])]
      ensures env.faults >= old(env.faults)
      ensures !s.Done? ==>
                || env.faults > old(env.faults) || !IsHealthy(old(w), place, req.database)
                || (req.sanitize && !place.boots(place.sanitized(old(w.databases)[req.database])))
      ensures s.Crashed? ==> env.faults > old(env.faults)
      ensures env.reliable ==> env.faults == old(env.faults)
    {
      s := Healthy(req.database);
      if s.IsFailure() {
        return;
      }
      if req.sanitize {
        :- Sanitize();
        :- Healthy(req.database);
      }
      if req.evidence {
        :- env.Attempt();
      }
      return Done;
    }

    /** The dump, the move and the copy of the files. */
    method CopyFiles(req: Request) returns (s: Status, moved: bool, created: bool)
      requires env.alive
      requires req.id !in w.saved && req.id !in w.snapshots && req.id !in w.started && req.source in w.others
      modifies `w, env
      ensures env.alive <==> !s.Crashed?
      ensures Safe(old(w), w, req) && w.databases == old(w.databases)
      ensures !s.Crashed? ==> FilesTracked(old(w), w, req, moved, created)
      ensures !req.evidence ==> req.id !in w.started
      ensures s.Done? ==>
              var source := w.others[req.source];
              && req.id in w.snapshots && Lookup(w.saved, req.id) == Some(old(w.target))
              && (req.evidence ==> Lookup(w.started, req.id) == Some(true))
              && w.target.Some? && IsCopy(source, w.target.value, place.server, req) && CanFollow(source, req.source)
              && env.faults == old(env.faults)
      ensures env.faults >= old(env.faults) && (s.Crashed? ==> env.faults > old(env.faults))
      ensures !s.Done? ==>
                env.faults > old(env.faults) || req.database !in w.databases || !CanFollow(w.others[req.source], req.source)
      ensures env.reliable ==> env.faults == old(env.faults)
    {
      moved, created := false, false;
      :- TakeSnapshot(req);
      s, moved := MoveAside(req.id);
      if s.IsFailure() {
        return;
      }
      s, created := FillTarget(req);
    }

    /** The forward part of `clone_with_recovery`. */
    method Work(req: Request, source: Name) returns (s: Status, moved: bool, created: bool, mutated: bool)
      requires env.alive
      requires req.id !in w.saved && req.id !in w.snapshots && req.id !in w.started
      requires req.source in w.others && source == w.others[req.source].settings.database
      modifies `w, env
      ensures env.alive <==> !s.Crashed?
      ensures Safe(old(w), w, req)
      ensures !s.Crashed? ==> FilesTracked(old(w), w, req, moved, created) && DatabaseTracked(old(w), w, req, mutated)
      ensures !req.evidence ==> req.id !in w.started
      // databases do not change before there is a new target
      ensures w.databases != old(w.databases) ==> w.target.Some? && (old(w.target).Some? ==> Moved(w, req.id).Some?)
      ensures s.Done? ==> Cloned(old(w), w, place, req) && CanCopy(old(w), place, req)
      ensures env.faults >= old(env.faults)
      ensures s.Crashed? || (!s.Done? && CanCopy(old(w), place, req)) ==> env.faults > old(env.faults)
      ensures env.reliable ==> env.faults == old(env.faults)
    {
      mutated := false;
      ghost var base := w;
      s, moved, created := CopyFiles(req);
      if s.IsFailure() {
        return;
      }
      s, mutated := ReplaceDatabase(req, source);
      if s.IsFailure() {
        return;
      }
      ghost var loaded := w.databases;
      s := CheckCopy(req);
      SameButTrans(w.databases, loaded, base.databases, req.database);
      if s.Done? {
        PutBack(base.databases, w.databases, req.database);
      }
    }

    /** The dump goes back into the database, if that was changed. */
    method RestoreDatabase(ghost base: World, req: Request, mutated: bool) returns (s: Status)
      requires env.alive
      requires Safe(base, w, req) && DatabaseTracked(base, w, req, mutated) && req.id !in w.started
      modifies `w, env
      ensures env.alive <==> !s.Crashed?
      ensures Safe(base, w, req) && w == old(w).(databases := w.databases)
      ensures s.Done? ==> w.databases == base.databases
      ensures env.faults >= old(env.faults)
      ensures !s.Done? ==> env.faults > old(env.faults)
      ensures env.reliable ==> env.faults == old(env.faults)
    {
      s := Done;
      if mutated {
        s := Load(req.database, w.snapshots[req.id]);
        SameButTrans(w.databases, old(w.databases), base.databases, req.database);
        PutBack(old(w.databases), base.databases, req.database);
      }
    }

    /** The copy goes, and the files come back if the database did. */
    method RestoreFiles(ghost base: World, req: Request, moved: bool, created: bool, restored: bool) returns (s: Status)
      requires env.alive
      requires Safe(base, w, req) && FilesTracked(base, w, req, moved, created) && req.id !in w.started
      modifies `w, env
      ensures env.alive <==> !s.Crashed?
      ensures Safe(base, w, req) && w == old(w).(target := w.target, saved := w.saved)
      ensures s.Done? ==> w.target == base.target
      ensures env.faults >= old(env.faults)
      ensures env.faults == old(env.faults) && restored ==> s.Done?
      ensures s.Crashed? ==> env.faults > old(env.faults)
      ensures env.reliable ==> env.faults == old(env.faults)
    {
      s := Done;
      if created {
        var partial: Site := *;
        s := Gradual(w.(target := None), w.(target := Some(partial)));
        if s.IsFailure() {
          return;
        }
      }
      if moved {
        if !restored {
          return Failed;
        }
        SameButUpdate(w.saved, req.id, None);
        s := Atomic(w.(target := w.saved[req.id], saved := w.saved[req.id := None]));
      }
    }

    /** The compensation after a failed forward part; it runs with a token of
        its own, so a cancelled request is compensated too. */
    method Compensate(ghost base: World, req: Request, moved: bool, created: bool, mutated: bool) returns (s: Status)
      requires env.alive
      requires Safe(base, w, req) && req.id !in w.started
      requires FilesTracked(base, w, req, moved, created) && DatabaseTracked(base, w, req, mutated)
      modifies `w, env
      ensures env.alive <==> !s.Crashed?
      ensures Safe(base, w, req)
      ensures s.Done? ==> w.target == base.target && w.databases == base.databases
      ensures env.faults >= old(env.faults)
      ensures env.faults == old(env.faults) ==> s.Done?
      ensures env.reliable ==> env.faults == old(env.faults)
    {
      var restored := RestoreDatabase(base, req, mutated);
      if restored.Crashed? {
        return Crashed;
      }
      s := RestoreFiles(base, req, moved, created, restored.Done?);
      if s.Done? && restored.Failed? {
        s := Failed;
      }
    }

    /** What stands before the first change: neither root is in the other, the
        source and its settings are there and its own Drush names a usable
        database. */
    method CheckSource(req: Request) returns (s: Status, source: Name)
      requires env.alive
      modifies env
      ensures env.alive <==> !s.Crashed?
      ensures env.faults >= old(env.faults)
      ensures s.Done? ==>
              && HasUsableSource(w, place, req)
              && source == w.others[req.source].settings.database && env.faults == old(env.faults)
      ensures !s.Done? ==> !HasUsableSource(w, place, req) || env.faults > old(env.faults)
      ensures s.Crashed? ==> env.faults > old(env.faults)
      ensures env.reliable ==> env.faults == old(env.faults)
    {
      source := "";
      :- env.Attempt();
      if IsWithin(place.root, req.source) || IsWithin(req.source, place.root) {
        return Failed, source;
      }
      if req.source !in w.others || w.others[req.source].text.None? {
        return Failed, source;
      }
      :- env.Attempt();
      var settings := w.others[req.source].settings;
      if settings.driver != "mysql" || settings.host != place.server || !BackupTab.IsDatabaseName(settings.database) {
        return Failed, source;
      }
      if settings.database == req.database {
        return Failed, source;
      }
      return Done, settings.database;
    }

    /** `clone_with_recovery` from the marker on. */
    method CloneUnderMarker(req: Request, source: Name) returns (o: Outcome)
      requires env.alive
      requires w.pending == Set(ManifestOf(w, req))
      requires req.id !in w.saved && req.id !in w.snapshots && req.id !in w.started
      requires req.source in w.others && source == w.others[req.source].settings.database
      modifies `w, env
      ensures env.alive <==> !o.Died?
      ensures MarkedEnds(old(w), place, req, o, w)
      ensures o.Committed? ==> CanCopy(old(w), place, req)
      ensures env.faults >= old(env.faults)
      ensures !o.Committed? && CanCopy(old(w), place, req) ==> env.faults > old(env.faults)
      ensures !o.Committed? && !req.evidence && env.faults == old(env.faults) ==> w.pending.Absent?
      ensures env.faults == old(env.faults) ==>
                o == if CanCopy(old(w), place, req) then Committed else if req.evidence then RecoveryRequired else Rejected
      ensures env.reliable ==> env.faults == old(env.faults)
    {
      ghost var base := w;
      var s, moved, created, mutated := Work(req, source);
      if s.Crashed? {
        return Died;
      }
      var cleaned := env.Attempt();
      if cleaned.Crashed? {
        return Died;
      }
      if s.Done? {
        return Committed;
      }
      if req.evidence {
        return RecoveryRequired;
      }
      s := Compensate(base, req, moved, created, mutated);
      if s.Crashed? {
        return Died;
      }
      if s.Failed? {
        return RecoveryRequired;
      }
      s := Atomic(w.(pending := Absent));
      return if s.Crashed? then Died else Rejected;
    }

    /** `clone_with_recovery`. */
    method CloneWithRecovery(req: Request) returns (o: Outcome)
      requires env.alive
      requires IsAdmitted(w, req.id)
      modifies `w, env
      ensures env.alive <==> !o.Died?
      ensures CloneEnds(old(w), place, req, o, w)
      ensures o.Committed? ==> HasUsableSource(old(w), place, req) && CanCopy(old(w), place, req)
      ensures env.faults >= old(env.faults)
      ensures env.faults == old(env.faults) ==> o == AdmittedOutcome(place, old(w), req)
      ensures !o.Committed? && !req.evidence && env.faults == old(env.faults) ==> w.pending == old(w.pending)
      ensures env.reliable ==> env.faults == old(env.faults)
    {
      var s, source := CheckSource(req);
      if s.IsFailure() {
        return if s.Crashed? then Died else Rejected;
      }
      if !w.pending.Absent? {
        return RecoveryRequired;
      }
      o := CloneMarked(req, source);
    }

    /** The marker, and then the clone. */
    method CloneMarked(req: Request, source: Name) returns (o: Outcome)
      requires env.alive
      requires w.pending.Absent? && IsAdmitted(w, req.id) && HasUsableSource(w, place, req)
      requires source == w.others[req.source].settings.database
      modifies `w, env
      ensures env.alive <==> !o.Died?
      ensures CloneEnds(old(w), place, req, o, w)
      ensures o.Committed? ==> CanCopy(old(w), place, req)
      ensures env.faults >= old(env.faults)
      ensures !o.Committed? && CanCopy(old(w), place, req) ==> env.faults > old(env.faults)
      ensures !o.Committed? && !req.evidence && env.faults == old(env.faults) ==> w.pending.Absent?
      ensures env.faults == old(env.faults) ==>
                o == if CanCopy(old(w), place, req) then Committed else if req.evidence then RecoveryRequired else Rejected
      ensures env.reliable ==> env.faults == old(env.faults)
    {
      ghost var m := ManifestOf(w, req);
      var s := Gradual(w.(pending := Set(ManifestOf(w, req))), w.(pending := Torn));
      if s.IsFailure() {
        return if s.Crashed? then Died else RecoveryRequired;
      }
      o := CloneUnderMarker(req, source);
      EndsUnmarked(old(w), m, place, req, o, w);
    }

    /** `fail`: recording the failure is attempted, not required. */
    method RecordFailure(id: string, o: Outcome) returns (r: Outcome)
      requires env.alive
      requires id in w.records && !o.Died?
      modifies `w, env
      ensures env.alive <==> !r.Died?
      ensures w == old(w) || w == old(w).(records := old(w.records)[id := Refused])
      ensures r == o || r.Died?
      ensures env.faults == old(env.faults) ==> r == o && w.records == old(w.records)[id := Refused]
      ensures env.faults >= old(env.faults)
      ensures env.reliable ==> env.faults == old(env.faults)
    {
      var s := Atomic(w.(records := w.records[id := Refused]));
      if s.Crashed? {
        return Died;
      }
      return o;
    }

    /** The durable record of the commit, and only then the end of the marker. */
    method Commit(id: string) returns (o: Outcome)
      requires env.alive
      requires id in w.records
      modifies this, env
      ensures env.alive <==> !o.Died?
      ensures w == old(w).(records := w.records, pending := w.pending)
      ensures w.records == old(w.records) || w.records == old(w.records)[id := Succeeded]
      ensures w.pending == old(w.pending) || (w.pending.Absent? && IsRecorded(w, id))
      ensures w.records == old(w.records) ==> settledTarget == old(settledTarget) && settledDatabases == old(settledDatabases)
      ensures w.records != old(w.records) ==> settledTarget == w.target && settledDatabases == w.databases
      ensures intact == old(intact)
      ensures o.Committed? || o.PostCommit? || o.Died?
      ensures o.PostCommit? ==> w == old(w)
      ensures env.faults >= old(env.faults)
      ensures env.faults == old(env.faults) ==> o.Committed? && w.pending.Absent?
      ensures env.faults == old(env.faults) ==> IsRecorded(w, id)
      ensures env.reliable ==> env.faults == old(env.faults)
    {
      var s := Atomic(w.(records := w.records[id := Succeeded]));
      if w.records != old(w.records) {
        settledTarget, settledDatabases := w.target, w.databases;
      }
      if s.IsFailure() {
        return if s.Crashed? then Died else PostCommit;
      }
      s := Atomic(w.(pending := Absent));
      return if s.Crashed? then Died else Committed;
    }

    /** The request is new, and what it needs can be opened. */
    method Admit(req: Request) returns (s: Status)
      requires env.alive
      modifies `w, env
      ensures env.alive <==> !s.Crashed?
      ensures w == old(w) || (req.id !in old(w.records) && req.id in w.records && w == old(w).(records := w.records) &&
               w.records == old(w.records)[req.id := w.records[req.id]])
      ensures w != old(w) && !s.Done? ==> !IsRecorded(w, req.id)
      ensures req.evidence && IsSystem(req.database) ==> w == old(w)
      ensures s.Done? ==>
              && req.id !in old(w.records) && !(req.evidence && IsSystem(req.database))
              && w == old(w).(records := old(w.records)[req.id := InProgress]) && env.faults == old(env.faults)
      ensures env.faults >= old(env.faults)
      ensures !s.Done? ==> env.faults > old(env.faults) || req.id in old(w.records) || (req.evidence && IsSystem(req.database))
      ensures s.Crashed? ==> env.faults > old(env.faults)
      ensures !s.Done? && env.faults == old(env.faults) ==> w == old(w)
      ensures env.reliable ==> env.faults == old(env.faults)
    {
      if req.evidence && IsSystem(req.database) {
        return Failed;
      }
      :- env.Attempt();
      if req.id in w.records {
        return Failed;
      }
      :- Atomic(w.(records := w.records[req.id := InProgress]));
      s := env.Attempt();
      if s.Failed? {
        var o := RecordFailure(req.id, Rejected);
        if o.Died? {
          s := Crashed;
        }
      }
    }

    /** A finished clone is recorded. */
    method CommitClone(ghost base: World, req: Request) returns (o: Outcome)
      requires env.alive
      requires CloneEnds(base, place, req, Committed, w) && IsAdmitted(base, req.id) && HasKeys(base)
      requires intact ==> IsKept(base, settledTarget, settledDatabases)
      modifies this, env
      ensures env.alive <==> !o.Died?
      ensures Valid() && intact == old(intact)
      ensures IsStep(base, place, req, o, w) && SameBut(w.records, base.records, req.id)
      ensures (settledTarget == old(settledTarget) && settledDatabases == old(settledDatabases)) ||
              (IsRecorded(w, req.id) && Cloned(base, w, place, req) &&
               settledTarget == w.target && settledDatabases == w.databases)
      ensures env.faults >= old(env.faults)
      ensures env.faults == old(env.faults) ==> o.Committed? && w.pending.Absent?
      ensures env.faults == old(env.faults) ==> IsRecorded(w, req.id)
      ensures env.reliable ==> env.faults == old(env.faults)
    {
      EndKeys(base, place, req, Committed, w);
      EndCovered(base, place, req, Committed, w);
      o := Commit(req.id);
    }

    /** A request without a clone is recorded, as far as that works. */
    method RecordEnd(ghost base: World, req: Request, end: Outcome) returns (o: Outcome)
      requires env.alive <==> !end.Died?
      requires CloneEnds(base, place, req, end, w) && IsAdmitted(base, req.id) && !end.Committed? && HasKeys(base)
      requires intact ==> IsKept(base, settledTarget, settledDatabases)
      modifies `w, env
      ensures env.alive <==> !o.Died?
      ensures Valid() && (o == end || o.Died?)
      ensures IsStep(base, place, req, o, w) && SameBut(w.records, base.records, req.id)
      ensures w.pending == old(w.pending)
      ensures env.faults >= old(env.faults)
      ensures env.faults == old(env.faults) && !end.Died? ==> o == end && Lookup(w.records, req.id) == Some(Refused)
      ensures env.reliable ==> env.faults == old(env.faults)
    {
      o := end;
      if !end.Died? {
        o := RecordFailure(req.id, end);
      }
      EndRecorded(base, place, req, end, old(w), w);
      if intact {
        EndKept(base, place, req, end, old(w), w, settledTarget, settledDatabases);
      }
    }

    /** `execute` from the admitted request on. */
    method ExecuteAdmitted(req: Request) returns (o: Outcome)
      requires env.alive
      requires Valid() && IsAdmitted(w, req.id)
      modifies this, env
      ensures env.alive <==> !o.Died?
      ensures Valid() && intact == old(intact)
      ensures IsStep(old(w), place, req, o, w) && SameBut(w.records, old(w.records), req.id)
      ensures (settledTarget == old(settledTarget) && settledDatabases == old(settledDatabases)) ||
              (IsRecorded(w, req.id) && old(w.pending).Absent? && Cloned(old(w), w, place, req) &&
               settledTarget == w.target && settledDatabases == w.databases)
      ensures env.faults >= old(env.faults)
      ensures env.faults == old(env.faults) ==>
                && o == AdmittedOutcome(place, old(w), req)
                && Lookup(w.records, req.id) == Some(if o.Committed? then Succeeded else Refused)
      ensures env.faults == old(env.faults) && (o.Committed? || !req.evidence) ==> w.pending == old(w.pending)
      ensures env.reliable ==> env.faults == old(env.faults)
    {
      o := CloneWithRecovery(req);
      if o.Committed? {
        o := CommitClone(old(w), req);
      } else {
        o := RecordEnd(old(w), req, o);
      }
    }

    /** `execute`: one request, from its admission to its answer or to the death
        of the process. */
    method Execute(req: Request) returns (o: Outcome)
      requires env.alive
      requires Valid()
      modifies this, env
      ensures env.alive <==> !o.Died?
      ensures Valid() && intact == old(intact)
      ensures IsStep(old(w), place, req, o, w)
      ensures SameBut(w.records, old(w.records), req.id) && (req.id in old(w.records) ==> w == old(w))
      // the source keeps its database, whatever the request says
      ensures req.source in w.others ==>
              var name := w.others[req.source].settings.database;
              Lookup(w.databases, name) == Lookup(old(w.databases), name)
      // with evidence, no request reaches a database of the server's own
      ensures req.evidence && AsciiLower(req.database) in ["mysql", "sys", "information_schema", "performance_schema"] ==>
                w == old(w)
      // a marker that is new is right exactly when the lookup did not miss the target
      ensures w.pending.Set? && old(w.pending).Absent? ==>
                (IsRight(w.pending.manifest, old(w.target)) <==> !(req.blind && old(w.target).Some?))
      // what counts as settled moves only with a recorded commit
      ensures (settledTarget == old(settledTarget) && settledDatabases == old(settledDatabases)) ||
              (IsRecorded(w, req.id) && old(w.pending).Absent? && Cloned(old(w), w, place, req) &&
               settledTarget == w.target && settledDatabases == w.databases)
      // and without a fault the answer is determined, and recorded
      ensures env.faults >= old(env.faults)
      ensures env.faults == old(env.faults) ==>
                && o == QuietOutcome(place, old(w), req)
                && (o.Committed? <==> Acceptable(place, old(w), req))
                && (IsNew(old(w), req) ==> Lookup(w.records, req.id) == Some(if o.Committed? then Succeeded else Refused))
      ensures env.faults == old(env.faults) && (o.Committed? || !req.evidence) ==> w.pending == old(w.pending)
      ensures env.reliable ==> env.faults == old(env.faults)
    {
      var s := Admit(req);
      if s.IsFailure() {
        return if s.Crashed? then Died else Rejected;
      }
      o := ExecuteAdmitted(req);
      Unrecorded(old(w), InProgress, place, req, o, w);
    }

    // ---- the steps of a recovery ------------------------------------------

    /** The database goes back first. */
    method Replay(m: Manifest, r: Recovery) returns (s: Status)
      requires env.alive
      modifies `w, env
      ensures env.alive <==> !s.Crashed?
      ensures w == old(w).(databases := w.databases)
      ensures SameBut(w.databases, old(w.databases), m.database)
      ensures s.Done? ==> CanReplay(m, old(w), r) && w.databases == old(w.databases)[m.database := w.snapshots[m.id]]
      ensures s.Crashed? ==> env.faults > old(env.faults)
      ensures env.faults >= old(env.faults)
      ensures w != old(w) ==> m.id in w.snapshots
      ensures env.faults == old(env.faults) ==>
                (s.Done? <==> CanReplay(m, old(w), r))
      ensures env.reliable ==> env.faults == old(env.faults)
    {
      if !CanReplay(m, w, r) {
        return Failed;
      }
      :- env.Attempt();
      s := Load(m.database, w.snapshots[m.id]);
    }

    /** What the clone made goes, if it is seen, and the saved files come back, if
        they are. A rename does not replace a directory that is not empty. */
    method PutFilesBack(id: string, saved: bool, target: bool) returns (s: Status)
      requires env.alive
      requires saved ==> Moved(w, id).Some?
      requires target ==> w.target.Some?
      modifies `w, env
      ensures env.alive <==> !s.Crashed?
      ensures w == old(w).(target := w.target, saved := w.saved)
      ensures w.saved == old(w.saved) ||
              (saved && w.saved == old(w.saved)[id := None] && w.target == Moved(old(w), id))
      ensures s.Done? ==>
                if saved then w.target == Moved(old(w), id) && w.saved == old(w.saved)[id := None]
                else w.target == (if target then None else old(w.target)) && w.saved == old(w.saved)
      ensures env.faults >= old(env.faults)
      ensures s.Crashed? ==> env.faults > old(env.faults)
      ensures s.Done? && saved && !target && old(w.target).Some? ==> old(w.target).value.files == map[]
      ensures s.Failed? && env.faults == old(env.faults) ==>
                saved && !target && old(w.target).Some? && old(w.target).value.files != map[]
      ensures env.reliable ==> env.faults == old(env.faults)
    {
      if target {
        var partial: Site := *;
        s := Gradual(w.(target := None), w.(target := Some(partial)));
        if s.IsFailure() {
          return;
        }
      }
      if saved {
        if w.target.Some? && w.target.value.files != map[] {
          return Failed;
        }
        :- Atomic(w.(target := w.saved[id], saved := w.saved[id := None]));
      }
      return Done;
    }

    /** The directory of the saved files goes, with whatever is in it; that it
        cannot be removed does not matter. */
    method RemoveDirectory(id: string) returns (s: Status)
      requires env.alive
      modifies `w, env
      ensures env.alive <==> !s.Crashed?
      ensures w == old(w).(saved := w.saved)
      ensures SameBut(w.saved, old(w.saved), id) && w.saved.Keys <= old(w.saved).Keys
      ensures Moved(old(w), id).None? ==> Moved(w, id).None?
      ensures env.faults >= old(env.faults) && (!s.Done? ==> env.faults > old(env.faults))
      ensures s.Done? ==> id !in w.saved
      ensures env.reliable ==> env.faults == old(env.faults)
    {
      s := Done;
      if id in w.saved {
        var partial: Option<Site> := *;
        if w.saved[id].None? {
          partial := None;
        }
        s := Gradual(w.(saved := w.saved - {id}), w.(saved := w.saved[id := partial]));
      }
    }

    /** `fail_interrupted`. */
    method FailInterrupted(id: string) returns (s: Status)
      requires env.alive
      modifies `w, env
      ensures env.alive <==> !s.Crashed?
      ensures w == old(w) ||
              (Lookup(old(w.records), id) == Some(InProgress) && w == old(w).(records := old(w.records)[id := Refused]))
      ensures env.faults >= old(env.faults)
      ensures env.faults == old(env.faults) && id in w.records ==> s.Done?
      ensures s.Done? ==> id in w.records
      ensures env.faults == old(env.faults) || s.Done? ==> w.records == Closed(old(w.records), id)
      ensures env.reliable ==> env.faults == old(env.faults)
    {
      s := env.Attempt();
      if s.IsFailure() {
        return;
      }
      if id !in w.records {
        return Failed;
      }
      if w.records[id].InProgress? {
        :- Atomic(w.(records := w.records[id := Refused]));
        :- env.Attempt();
      }
      return Done;
    }

    /** The marker goes, and with it what stopped the requests. */
    method ClearMarker(o: Outcome, strict: bool) returns (answer: Outcome)
      requires env.alive
      requires o.RolledBack? || o.Cleared?
      modifies `w, env
      ensures env.alive <==> !answer.Died?
      ensures w == old(w) || w == old(w).(pending := Absent)
      ensures answer == o || answer.NeedsAttention? || answer.Died?
      ensures answer == o ==> w.pending.Absent?
      ensures env.faults >= old(env.faults)
      ensures env.faults == old(env.faults) ==> answer == o
      ensures env.reliable ==> env.faults == old(env.faults)
    {
      var s := Atomic(w.(pending := Absent));
      if s.Done? && strict {
        s := env.Attempt();
      }
      return if s.Done? then o else if s.Crashed? then Died else NeedsAttention;
    }

    /** Database, files, and the directory they were kept in. */
    method Undo(m: Manifest, r: Recovery) returns (s: Status)
      requires env.alive
      modifies `w, env
      ensures env.alive <==> !s.Crashed?
      ensures IsHalfBack(m, old(w), r, w) && w.records == old(w.records) && w.saved.Keys <= old(w.saved).Keys
      ensures s.Done? ==>
                && w.target == UndoneTarget(m, old(w), r)
                && w.databases == UndoneDatabases(m, old(w), r)
                && (Replays(m, old(w), r) ==> CanReplay(m, old(w), r))
                && (SeesSaved(m, old(w), r) ==> CanRename(old(w), r))
      ensures env.faults >= old(env.faults) && (s.Crashed? ==> env.faults > old(env.faults))
      ensures s.Failed? && env.faults == old(env.faults) ==>
                (Replays(m, old(w), r) && !CanReplay(m, old(w), r)) || (SeesSaved(m, old(w), r) && !CanRename(old(w), r))
      ensures env.faults == old(env.faults) && s.Done? && (SeesChange(m, old(w), r) || SeesDirectory(m, old(w), r)) ==>
                m.id !in w.saved
      ensures env.reliable ==> env.faults == old(env.faults)
    {
      s := Done;
      var saved, target := SeesSaved(m, w, r), SeesTarget(w, r);
      var directory, changed := SeesDirectory(m, w, r), SeesChange(m, w, r);
      if Replays(m, w, r) {
        s := Replay(m, r);
        if s.IsFailure() {
          return;
        }
      }
      if changed {
        s := PutFilesBack(m.id, saved, target);
        if s.IsFailure() {
          return;
        }
      }
      if changed || directory {
        s := RemoveDirectory(m.id);
        if s.Failed? {
          s := Done;
        }
      }
    }

    /** `recover` for a clone that was not recorded and may have changed
        something. */
    method RollBack(m: Manifest, r: Recovery) returns (o: Outcome)
      requires env.alive
      requires w.pending == Set(m) && m.id in w.records
      requires !SeesRecord(m, w, r) && !IsUnstarted(m, w, r)
      requires r.only.Some? ==> r.only.value == m.id && m.id in w.started
      modifies `w, env
      ensures env.alive <==> !o.Died?
      ensures IsRecoveryStep(old(w), r, o, w)
      ensures w.started == old(w.started) && w.records.Keys == old(w.records).Keys && w.saved.Keys <= old(w.saved).Keys
      ensures IsRecorded(w, m.id) == IsRecorded(old(w), m.id)
      ensures w.pending.Set? ==> IsHalfBack(m, old(w), r, w)
      ensures env.faults >= old(env.faults)
      ensures env.faults == old(env.faults) ==> (w.pending.Absent? <==> RollsBack(m, old(w), r))
      ensures r.only.Some? && (o.RolledBack? || o.Cleared?) ==> w.records == Closed(old(w.records), m.id)
      ensures env.faults == old(env.faults) && w.pending.Absent? ==> o.RolledBack? || o.Cleared?
      ensures env.faults == old(env.faults) && w.pending.Absent? ==> IsCleanedUp(m, old(w), r, w)
      ensures env.reliable ==> env.faults == old(env.faults)
    {
      var changed := SeesChange(m, w, r);
      if m.hadTarget && !(changed || SeesDirectory(m, w, r) || SeesTarget(w, r)) {
        return NeedsAttention;
      }
      if r.only.Some? && m.hadTarget && !SeesSaved(m, w, r) {
        return NeedsAttention;
      }
      o := UndoMarked(m, r);
    }

    /** What the request did is undone, and then its record is closed and its
        marker goes. */
    method UndoMarked(m: Manifest, r: Recovery) returns (o: Outcome)
      requires env.alive
      requires w.pending == Set(m) && m.id in w.records
      requires !SeesRecord(m, w, r) && !IsUnstarted(m, w, r)
      requires r.only.Some? ==> r.only.value == m.id && m.id in w.started
      requires m.hadTarget ==> SeesSaved(m, w, r) || (r.only.None? && (SeesDirectory(m, w, r) || SeesTarget(w, r)))
      modifies `w, env
      ensures env.alive <==> !o.Died?
      ensures IsRecoveryStep(old(w), r, o, w)
      ensures w.started == old(w.started) && w.records.Keys == old(w.records).Keys && w.saved.Keys <= old(w.saved).Keys
      ensures IsRecorded(w, m.id) == IsRecorded(old(w), m.id)
      ensures w.pending.Set? ==> IsHalfBack(m, old(w), r, w)
      ensures env.faults >= old(env.faults)
      ensures env.faults == old(env.faults) ==> (w.pending.Absent? <==> RollsBack(m, old(w), r))
      ensures r.only.Some? && (o.RolledBack? || o.Cleared?) ==> w.records == Closed(old(w.records), m.id)
      ensures env.faults == old(env.faults) && w.pending.Absent? ==> o.RolledBack? || o.Cleared?
      ensures env.faults == old(env.faults) && w.pending.Absent? ==> IsCleanedUp(m, old(w), r, w)
      ensures env.reliable ==> env.faults == old(env.faults)
    {
      var changed := SeesChange(m, w, r);
      var s := Undo(m, r);
      if s.IsFailure() {
        return if s.Crashed? then Died else NeedsAttention;
      }
      o := FinishRecovery(m.id, if changed then RolledBack else Cleared, r.only.Some?);
    }

    /** The record, and then the marker. */
    method FinishRecovery(id: string, o: Outcome, strict: bool) returns (answer: Outcome)
      requires env.alive
      requires o.RolledBack? || o.Cleared?
      modifies `w, env
      ensures env.alive <==> !answer.Died?
      ensures w == old(w).(records := w.records, pending := w.pending)
      ensures w.records.Keys == old(w.records).Keys && IsRecorded(w, id) == IsRecorded(old(w), id)
      ensures w.pending == old(w.pending) || w.pending.Absent?
      ensures answer == o || answer.NeedsAttention? || answer.Died?
      ensures answer == o ==> w.pending.Absent?
      ensures env.faults >= old(env.faults)
      ensures env.faults == old(env.faults) && id in old(w.records) ==> answer == o
      ensures env.faults == old(env.faults) || (strict && answer == o) ==> w.records == Closed(old(w.records), id)
      ensures env.reliable ==> env.faults == old(env.faults)
    {
      if strict {
        var synced := env.Attempt();
        if synced.IsFailure() {
          return if synced.Crashed? then Died else NeedsAttention;
        }
      }
      var s := FailInterrupted(id);
      if s.Crashed? || (s.Failed? && strict) {
        return if s.Crashed? then Died else NeedsAttention;
      }
      answer := ClearMarker(o, strict);
    }

    /** `recover` for a clone that was recorded, or changed nothing. */
    method ClearUnchanged(m: Manifest, r: Recovery) returns (o: Outcome)
      requires env.alive
      requires w.pending == Set(m) && m.id in w.records
      requires SeesRecord(m, w, r) || IsUnstarted(m, w, r)
      requires r.only.Some? ==> r.only.value == m.id
      modifies `w, env
      ensures env.alive <==> !o.Died?
      ensures w == old(w).(records := w.records, pending := w.pending)
      ensures IsRecoveryStep(old(w), r, o, w)
      ensures w.records.Keys == old(w.records).Keys && IsRecorded(w, m.id) == IsRecorded(old(w), m.id)
      ensures w.pending == old(w.pending) || w.pending.Absent?
      ensures w.pending.Set? && SeesRecord(m, old(w), r) ==> w == old(w)
      ensures env.faults >= old(env.faults)
      ensures env.faults == old(env.faults) ==> w.pending.Absent? && o.Cleared?
      ensures r.only.Some? && (o.RolledBack? || o.Cleared?) ==> w.records == Closed(old(w.records), m.id)
      ensures env.faults == old(env.faults) && w.pending.Absent? ==> IsCleanedUp(m, old(w), r, w)
      ensures env.reliable ==> env.faults == old(env.faults)
    {
      if SeesRecord(m, w, r) {
        o := ClearMarker(Cleared, false);
      } else {
        o := FinishRecovery(m.id, Cleared, true);
      }
    }

    /** `recover` of the clone that left the marker `m`. */
    method RecoverMarked(m: Manifest, r: Recovery) returns (o: Outcome)
      requires env.alive
      requires w.pending == Set(m) && HasKeys(w)
      modifies `w, env
      ensures env.alive <==> !o.Died?
      ensures IsRecoveryStep(old(w), r, o, w)
      ensures HasKeys(w)
      ensures IsRecorded(w, m.id) == IsRecorded(old(w), m.id)
      ensures w.pending.Set? ==> IsHalfBack(m, old(w), r, w) && (SeesRecord(m, old(w), r) ==> w == old(w))
      ensures env.faults >= old(env.faults)
      ensures env.faults == old(env.faults) ==> (w.pending.Absent? <==> Recovers(m, old(w), r))
      ensures r.only.Some? && (o.RolledBack? || o.Cleared?) ==> w.records == Closed(old(w.records), m.id)
      ensures env.faults == old(env.faults) && w.pending.Absent? ==> o.RolledBack? || o.Cleared?
      ensures env.faults == old(env.faults) && w.pending.Absent? ==> IsCleanedUp(m, old(w), r, w)
      ensures env.reliable ==> env.faults == old(env.faults)
    {
      if r.only.Some? && r.only.value != m.id {
        return NeedsAttention;
      }
      var s := env.Attempt();
      if s.IsFailure() {
        return if s.Crashed? then Died else NeedsAttention;
      }
      if SeesRecord(m, w, r) || IsUnstarted(m, w, r) {
        o := ClearUnchanged(m, r);
      } else if r.only.Some? && m.id !in w.started {
        o := NeedsAttention;
      } else {
        o := RollBack(m, r);
      }
    }

    /** `recover`. */
    method Recover(r: Recovery) returns (o: Outcome)
      requires env.alive
      requires Valid()
      modifies this, env
      ensures env.alive <==> !o.Died?
      ensures Valid() && settledTarget == old(settledTarget) && settledDatabases == old(settledDatabases)
      ensures IsRecoveryStep(old(w), r, o, w)
      // what was settled is still kept, exactly as far as the result shows
      ensures intact <==> old(intact) && IsKept(w, settledTarget, settledDatabases)
      // a recovery that sees everything and stops half-way can be repeated
      ensures old(intact) && w.pending.Set? && r.misses == NOTHING_MISSED ==>
                var m := w.pending.manifest;
                IsRight(m, settledTarget) || Moved(old(w), m.id).Some? || IsRecorded(old(w), m.id) ==> intact
      // and without evidence that is used it hides nothing
      ensures old(intact) && w.pending.Set? && r.misses == NOTHING_MISSED && r.only.None? ==>
                !IsOrphan(w.pending.manifest, old(w), settledDatabases) ==>
                  !IsOrphan(w.pending.manifest, w, settledDatabases)
      // by the evidence, a success closes the record too
      ensures !old(w.pending).Set? ==> o.Rejected?
      ensures r.only.Some? && (o.RolledBack? || o.Cleared?) ==>
                w.records == Closed(old(w.records), old(w.pending).manifest.id)
      // without a fault the marker goes exactly if nothing stands in the way
      ensures env.faults >= old(env.faults)
      ensures env.faults == old(env.faults) && old(w.pending).Set? ==>
                && (w.pending.Absent? <==> Recovers(old(w.pending).manifest, old(w), r))
                && (w.pending.Absent? ==> o.RolledBack? || o.Cleared?)
      ensures w.pending.Set? ==> IsRecorded(w, w.pending.manifest.id) == IsRecorded(old(w), w.pending.manifest.id)
      ensures env.faults == old(env.faults) && old(w.pending).Set? && w.pending.Absent? ==>
                IsCleanedUp(old(w.pending).manifest, old(w), r, w)
      ensures env.reliable ==> env.faults == old(env.faults)
    {
      if !w.pending.Set? {
        return Rejected;
      }
      var m := w.pending.manifest;
      o := RecoverMarked(m, r);
      NoteKept(m, old(w), r);
    }

    /** Whether what was settled is still kept after the recovery `r` in `u`. */
    ghost method NoteKept(m: Manifest, u: World, r: Recovery)
      requires u.pending == Set(m) && (intact ==> IsKept(u, settledTarget, settledDatabases))
      requires w.pending.Set? ==>
                 && w.pending == u.pending && IsHalfBack(m, u, r, w) && IsRecorded(u, m.id) == IsRecorded(w, m.id)
                 && (SeesRecord(m, u, r) ==> w == u)
      modifies `intact
      ensures intact <==> old(intact) && IsKept(w, settledTarget, settledDatabases)
      ensures old(intact) && w.pending.Set? && r.misses == NOTHING_MISSED ==>
                && (IsRight(m, settledTarget) || Moved(u, m.id).Some? || IsRecorded(u, m.id) ==> intact)
                && (r.only.None? && !IsOrphan(m, u, settledDatabases) ==> !IsOrphan(m, w, settledDatabases))
    {
      if intact && w.pending.Set? && r.misses == NOTHING_MISSED {
        HalfBackKept(m, u, r, w, settledTarget, settledDatabases);
      }
      intact := intact && IsKept(w, settledTarget, settledDatabases);
    }

    /** One event. When it misses nothing, what was settled is lost exactly by
        taking an orphan's marker away; and with evidence in every request and
        recoveries by the disk there are no orphans. */
    method Handle(e: Event) returns (o: Outcome)
      requires env.alive
      requires Valid()
      modifies this, env
      ensures env.alive <==> !o.Died?
      ensures Valid() && IsEventStep(old(w), place, e, o, w)
      ensures old(intact) && IsSeeing(e) && IsMarkedRight(old(w), old(settledTarget)) ==>
                && (intact <==> !DropsOrphan(e, old(w), w, old(settledDatabases)))
                && (intact ==> IsMarkedRight(w, settledTarget))
                && (intact && AreByDisk([e]) && IsShown(old(w), old(settledDatabases)) ==> IsShown(w, settledDatabases))
      ensures intact ==> old(intact)
    {
      assert AreByDisk([e]) ==> e in [e];
      match e {
        case Clone(req) =>
          o := Execute(req);
        case Recover(r) =>
          o := Recover(r);
          if old(intact) && IsSeeing(e) && IsMarkedRight(old(w), old(settledTarget)) && old(w.pending).Set?
             && w.pending.Absent? {
            DroppedMarker(old(w), r, o, w, settledTarget, settledDatabases);
          }
      }
    }

    /** Any run of requests and recoveries, with any number of deaths in between. */
    method Serve(events: seq<Event>) returns (outcomes: seq<Outcome>, ghost worlds: seq<World>, ghost orphans: nat)
      requires Valid()
      modifies this, env
      ensures Valid()
      ensures IsRun(worlds, place, events, outcomes) && worlds[0] == old(w) && worlds[|events|] == w
      // databases that nothing names never change
      ensures forall name | IsUnnamed(old(w), events, name) :: Lookup(w.databases, name) == Lookup(old(w.databases), name)
      // a marker stops every request until a recovery
      ensures forall i, j |
                0 <= i <= j <= |events| && !worlds[i].pending.Absent? && (forall k | i <= k < j :: events[k].Clone?) ::
                Stopped(worlds[i], worlds[j])
      // when no lookup fails, what was settled is lost exactly with the orphans
      ensures old(intact) && IsMarkedRight(old(w), old(settledTarget)) && (forall e | e in events :: IsSeeing(e)) ==>
                && (intact <==> orphans == 0)
                // of which there are none when requests and recoveries are of one kind
                && (AreByDisk(events) && IsShown(old(w), old(settledDatabases)) ==> orphans == 0)
                && (AreByEvidence(events) ==> orphans == 0)
    {
      outcomes, worlds, orphans := [], [w], 0;
      for k := 0 to |events|
        invariant Valid()
        invariant |worlds| == k + 1 && worlds[0] == old(w) && worlds[k] == w
        invariant IsRun(worlds, place, events[..k], outcomes)
        invariant old(intact) && IsMarkedRight(old(w), old(settledTarget)) && (forall e | e in events :: IsSeeing(e)) ==>
                    && (intact <==> orphans == 0)
                    && (intact ==> IsMarkedRight(w, settledTarget))
                    && (AreByDisk(events) && IsShown(old(w), old(settledDatabases)) ==>
                          orphans == 0 && IsShown(w, settledDatabases))
                    && (AreByEvidence(events) ==> orphans == 0)
      {
        assert events[k] in events;
        ghost var before, databases := w, settledDatabases;
        env.Restart();
        var o := Handle(events[k]);
        if DropsOrphan(events[k], before, w, databases) {
          orphans := orphans + 1;
        }
        outcomes, worlds := outcomes + [o], worlds + [w];
      }
      assert events[..|events|] == events;
      forall name | IsUnnamed(old(w), events, name)
        ensures Lookup(w.databases, name) == Lookup(old(w.databases), name)
      {
        RunKeeps(worlds, place, events, outcomes, |events|, name);
      }
      forall i, j | 0 <= i <= j <= |events| && !worlds[i].pending.Absent? && (forall k | i <= k < j :: events[k].Clone?)
        ensures Stopped(worlds[i], worlds[j])
      {
        RunStops(worlds, place, events, outcomes, i, j);
      }
    }
  }

  // ---- runs that do less than one would expect ------------------------------

  const NO_OPTIONS := Options("", "", "", None, false)
  const PLACE := Place("/srv/stage", "db", (tables: Tables) => tables, (tables: Tables) => true)
  const LIVE := Site(map[], Some(""), Settings("mysql", "db", "live"), None)
  const STAGE := Site(map["a" := "1"], Some(""), Settings("mysql", "db", "stage"), None)

  const CLONE_LIVE := Request("1", "/srv/live", "stage", NO_OPTIONS, false, false, false)

  lemma RootsAreApart(a: Path, b: Path, i: nat)
    requires i < |a| && i < |b| && a[i] != b[i]
    ensures !IsWithin(a, b)
  {
    assert (b + "/")[i] == b[i];
  }

  lemma LiveIsUsable(w: World, place: Place)
    requires place == PLACE
    requires Lookup(w.others, "/srv/live") == Some(LIVE) && "live" in w.databases && "stage" in w.databases
    ensures HasUsableSource(w, place, CLONE_LIVE) && CanCopy(w, place, CLONE_LIVE)
  {
    RootsAreApart(place.root, CLONE_LIVE.source, 5);
    RootsAreApart(CLONE_LIVE.source, place.root, 5);
  }

  /** A copy over a database with a table of its own keeps that table. */
  method OldTableStays() returns (o: Outcome, copy: Tables, source: Tables)
    ensures o.Committed? && copy != source && "old" in copy && "old" !in source
  {
    var env := new Environment(true);
    source := map["node" := "1"];
    var databases := map["live" := source, "stage" := map["old" := "0"]];
    var scope := new Scope(env, PLACE, None, map["/srv/live" := LIVE], databases);
    ghost var before := scope.w;
    LiveIsUsable(before, scope.place);
    o := scope.Execute(CLONE_LIVE);
    assert Cloned(before, scope.w, scope.place, CLONE_LIVE);
    copy := scope.w.databases["stage"];
    assert copy == before.databases["stage"] + source;
    assert "old" in copy;
  }

  /** There was no target, the import failed and so did the load that was to undo
      it, and what the clone had made was removed. A recovery finds nothing on
      the disk, takes the marker away and leaves the database. */
  method JunkStays(before: Tables, junk: Tables) returns (o: Outcome, after: Tables, marker: Marker)
    ensures o.Cleared? && marker.Absent? && after == junk
  {
    var env := new Environment(true);
    var databases := map["stage" := junk];
    ghost var settled := map["stage" := before];
    var w := World(Set(Manifest("1", false, "stage")), None, map[], map["1" := None], databases, map["1" := before], map[],
                   map["1" := Refused]);
    assert SameBut(databases, settled, "stage");
    var scope := new Scope.Interrupted(env, PLACE, w, None, settled);
    o := scope.Recover(Recovery(None, true, NOTHING_MISSED));
    after, marker := scope.w.databases["stage"], scope.w.pending;
  }

  /** The request did not see the target and died once it had its dump. The
      recovery sees a target that by the marker was not there, and removes it. */
  method TargetRemoved(tables: Tables) returns (o: Outcome, after: Option<Site>)
    ensures o.RolledBack? && after.None?
  {
    var env := new Environment(true);
    var databases := map["stage" := tables];
    var w := World(Set(Manifest("1", false, "stage")), Some(STAGE), map[], map[], databases, map["1" := tables], map[],
                   map["1" := InProgress]);
    var scope := new Scope.Interrupted(env, PLACE, w, Some(STAGE), databases);
    o := scope.Recover(Recovery(None, true, NOTHING_MISSED));
    after := scope.w.target;
  }

  /** The files were moved away and the recovery does not see them. It takes the
      partial copy for the untouched target. */
  method PartialCopyStays(tables: Tables, partial: Site) returns (o: Outcome, after: Option<Site>, marker: Marker)
    ensures o.Cleared? && marker.Absent? && after == Some(partial)
  {
    var env := new Environment(true);
    var databases := map["stage" := tables];
    var w := World(Set(Manifest("1", true, "stage")), Some(partial), map[], map["1" := Some(STAGE)], databases,
                   map["1" := tables], map[], map["1" := InProgress]);
    var scope := new Scope.Interrupted(env, PLACE, w, Some(STAGE), databases);
    o := scope.Recover(Recovery(None, true, NOTHING_MISSED.(saved := true)));
    after, marker := scope.w.target, scope.w.pending;
  }
}
