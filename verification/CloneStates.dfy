/** What copying a Drupal site over a staging site (src/drupal_clone.rs), and
    putting the staging site back after an interruption (src/site_reconcile.rs),
    finds and leaves on the disk and on the database server. */
module CloneStates {
  import opened Text
  import BackupTab
  import PhpSettings

  type Path = string
  type Name = string
  type Tables = map<string, string>

  datatype Settings = Settings(driver: string, host: string, database: Name)

  /** A site: its files, the text of its `settings.php` if that can be read, what
      Drush reports of it, and, when the text does not run to its end, what
      Drush reports whatever is appended to it. */
  datatype Site = Site(files: map<string, string>, text: Option<string>, settings: Settings, pinned: Option<Settings>)

  const EMPTY_SITE := Site(map[], None, Settings("", "", ""), None)

  /** What the copy gets of its own: its database user, a fresh salt, the domain
      it answers to, and whether it keeps its mail. */
  datatype Options = Options(user: string, password: string, salt: string, domain: Option<string>, blockMail: bool)

  /** A request; `blind` says whether the lookup of its target fails and is taken
      to say that there is none. */
  datatype Request = Request(
    id: string,
    source: Path,
    database: Name,
    options: Options,
    evidence: bool,
    sanitize: bool,
    blind: bool)

  /** What is fixed about a staging site: its root, the database server, what
      Drush makes of tables that it sanitizes, and on which tables it boots. */
  datatype Place = Place(root: Path, server: string, sanitized: Tables -> Tables, boots: Tables -> bool)

  /** `pending.json`. Creating it is not atomic: a failed or interrupted write
      leaves a file that is there but not complete. */
  datatype Marker = Absent | Torn | Set(manifest: Manifest)
  datatype Manifest = Manifest(id: string, hadTarget: bool, database: Name)

  datatype Record = InProgress | Succeeded | Refused

  /** The staging site, the sites at other paths, the directories that clones
      made for what they move away, the databases of the server, the completed
      dumps of target databases, the transaction records; and what the marker
      of a request with evidence says about whether its changes have started. */
  datatype World = World(
    pending: Marker,
    target: Option<Site>,
    others: map<Path, Site>,
    saved: map<string, Option<Site>>,
    databases: map<Name, Tables>,
    snapshots: map<string, Tables>,
    started: map<string, bool>,
    records: map<string, Record>)

  datatype Outcome =
    | Committed | Rejected | RecoveryRequired | PostCommit
    | RolledBack | Cleared | NeedsAttention
    | Died

  /** The files a clone moved away. */
  function Moved(w: World, id: string): Option<Site> {
    if id in w.saved then w.saved[id] else None
  }

  /** The marker's statement about the target is right. */
  predicate IsRight(m: Manifest, target: Option<Site>) {
    m.hadTarget == target.Some?
  }

  function ManifestOf(w: World, req: Request): Manifest {
    Manifest(req.id, w.target.Some? && !req.blind, req.database)
  }

  /** The databases of the server itself. */
  predicate IsSystem(name: Name) {
    AsciiLower(name) in ["mysql", "sys", "information_schema", "performance_schema"]
  }

  /** `source_database` and the comparison after it. */
  predicate IsUsableSource(settings: Settings, server: string, database: Name) {
    && settings.driver == "mysql"
    && settings.host == server
    && BackupTab.IsDatabaseName(settings.database)
    && settings.database != database
  }

  predicate HasUsableSource(w: World, place: Place, req: Request) {
    && !IsWithin(place.root, req.source) && !IsWithin(req.source, place.root)
    && req.source in w.others && w.others[req.source].text.Some?
    && IsUsableSource(w.others[req.source].settings, place.server, req.database)
  }

  /** `Path::starts_with`, by whole components. */
  predicate IsWithin(path: Path, root: Path) {
    path == root || StartsWith(path, root + "/")
  }

  lemma {:induction false} SplitInside(root: Path, rest: Path)
    ensures Split(root + ['/'] + rest, '/') == Split(root, '/') + Split(rest, '/')
  {
    JoinSplit(root, '/');
    JoinSplit(rest, '/');
    JoinAppend(Split(root, '/'), Split(rest, '/'), '/');
    SplitJoin(Split(root, '/') + Split(rest, '/'), '/');
  }

  lemma {:induction false} JoinedWithin(outer: seq<string>, inner: seq<string>)
    requires outer != [] && inner != []
    ensures IsWithin(Join(outer + inner, '/'), Join(outer, '/'))
  {
    JoinAppend(outer, inner, '/');
    var text, head := Join(outer + inner, '/'), Join(outer, '/') + "/";
    assert text == head + Join(inner, '/');
  }

  lemma {:induction false} PrefixIsWithin(path: Path, root: Path)
    requires Split(root, '/') <= Split(path, '/')
    ensures IsWithin(path, root)
  {
    var outer, parts := Split(root, '/'), Split(path, '/');
    JoinSplit(root, '/');
    JoinSplit(path, '/');
    if outer != parts {
      JoinedWithin(outer, parts[|outer|..]);
      assert parts == outer + parts[|outer|..];
    }
  }

  lemma {:induction false} WithinIsPrefix(path: Path, root: Path)
    ensures IsWithin(path, root) <==> Split(root, '/') <= Split(path, '/')
  {
    if StartsWith(path, root + "/") {
      SplitInside(root, path[|root| + 1..]);
      assert path == root + ['/'] + path[|root| + 1..];
    }
    if Split(root, '/') <= Split(path, '/') {
      PrefixIsWithin(path, root);
    }
  }

  /** A settings text that the copy's block can follow. */
  ghost predicate TakesBlock(text: string, source: Path) {
    forall i: nat :: !OccursAt(text, "?>", i) && !OccursAt(text, source, i)
  }

  /** The variables are the copy's own, and everything else is as it was. */
  ghost predicate AreCopys(after: PhpSettings.Variables, server: string, req: Request, vars: PhpSettings.Variables) {
    && Lookup(after, PhpSettings.DATABASE) == Some(PhpSettings.Str(req.database))
    && Lookup(after, PhpSettings.HOST) == Some(PhpSettings.Str(server))
    && Lookup(after, PhpSettings.PORT) == Some(PhpSettings.Str("3306"))
    && Lookup(after, PhpSettings.UNIX_SOCKET) == None
    && Lookup(after, PhpSettings.USERNAME) == Some(PhpSettings.Str(req.options.user))
    && Lookup(after, PhpSettings.PASSWORD) == Some(PhpSettings.Str(req.options.password))
    && Lookup(after, PhpSettings.SALT) == Some(PhpSettings.Str(req.options.salt))
    && (req.options.domain.Some? ==>
          && Lookup(after, PhpSettings.PATTERNS).Some?
          && PhpSettings.Trusts(Lookup(after, PhpSettings.PATTERNS).value, req.options.domain.value))
    && (req.options.blockMail ==> Lookup(after, PhpSettings.MAIL) == Some(PhpSettings.Str("test_mail_collector")))
    && (forall key | key !in PhpSettings.KEYS :: Lookup(after, key) == Lookup(vars, key))
  }

  /** What follows the source's text in the copy's, run on these variables. */
  ghost predicate SaysOn(text: string, out: string, server: string, req: Request, vars: PhpSettings.Variables) {
    && text <= out
    && PhpSettings.Run(out[|text|..], vars).Some?
    && AreCopys(PhpSettings.Run(out[|text|..], vars).value, server, req, vars)
  }

  /** Whatever the source's text has set, the copy's makes the copy itself. */
  ghost predicate SaysCopy(text: string, out: string, server: string, req: Request) {
    forall vars :: SaysOn(text, out, server, req, vars)
  }

  function TextOf(vars: PhpSettings.Variables, key: string): string {
    if key in vars && vars[key].Str? then vars[key].text else ""
  }

  /** What Drush reports of a site once `tail` is appended to its settings. */
  function Reported(site: Site, tail: string): Settings {
    if site.pinned.Some? then site.pinned.value else
      match PhpSettings.Run(tail, map[])
      case Some(vars) => Settings(site.settings.driver, TextOf(vars, PhpSettings.HOST), TextOf(vars, PhpSettings.DATABASE))
      case None => site.settings
  }

  /** A site whose settings can be made a copy's. */
  ghost predicate CanFollow(site: Site, source: Path) {
    site.text.Some? && TakesBlock(site.text.value, source)
  }

  /** The copy of a site: its files, and its settings with the copy's own after
      them. */
  ghost predicate IsCopy(site: Site, copy: Site, server: string, req: Request) {
    && copy.files == site.files && copy.pinned == site.pinned
    && site.text.Some? && copy.text.Some? && SaysCopy(site.text.value, copy.text.value, server, req)
    && copy.settings == if site.pinned.Some? then site.pinned.value
                        else Settings(site.settings.driver, server, req.database)
  }

  lemma ReportedIsCopy(site: Site, out: string, server: string, req: Request)
    requires site.text.Some? && SaysCopy(site.text.value, out, server, req)
    ensures site.text.value <= out
    ensures IsCopy(site, site.(text := Some(out), settings := Reported(site, out[|site.text.value|..])), server, req)
  {
    assert SaysOn(site.text.value, out, server, req, map[]);
  }

  /** What is appended takes effect, or its effect is there already. */
  predicate TakesEffect(site: Site, database: Name) {
    site.pinned.Some? ==> site.pinned.value.database == database
  }

  /** `copy_is_healthy`: the copy is there and works on this database. */
  predicate IsHealthy(w: World, place: Place, database: Name) {
    && w.target.Some? && w.target.value.settings.database == database
    && database in w.databases && place.boots(w.databases[database])
  }

  ghost predicate CanCopy(w: World, place: Place, req: Request)
    requires req.source in w.others
  {
    var source := w.others[req.source];
    && CanFollow(source, req.source) && TakesEffect(source, req.database)
    && source.settings.database in w.databases && req.database in w.databases
    && place.boots(Overlaid(w, req)) && (req.sanitize ==> place.boots(place.sanitized(Overlaid(w, req))))
  }

  /** The requests that nothing but a failing environment stands in the way of. */
  ghost predicate Acceptable(place: Place, w: World, req: Request) {
    && w.pending.Absent?
    && req.id !in w.records
    && !(req.evidence && IsSystem(req.database))
    && HasUsableSource(w, place, req)
    && CanCopy(w, place, req)
  }

  predicate IsNew(w: World, req: Request) {
    req.id !in w.records && !(req.evidence && IsSystem(req.database))
  }

  /** What a request is answered when no step fails. */
  ghost function QuietOutcome(place: Place, w: World, req: Request): Outcome {
    if IsNew(w, req) then AdmittedOutcome(place, w, req) else Rejected
  }

  ghost function AdmittedOutcome(place: Place, w: World, req: Request): Outcome {
    if !HasUsableSource(w, place, req) then Rejected
    else if !w.pending.Absent? then RecoveryRequired
    else if CanCopy(w, place, req) then Committed
    else if req.evidence then RecoveryRequired
    else Rejected
  }

  /** The tables of the target and over them those of the source. */
  ghost function Overlaid(w: World, req: Request): Tables
    requires req.source in w.others && w.others[req.source].settings.database in w.databases
    requires req.database in w.databases
  {
    w.databases[req.database] + w.databases[w.others[req.source].settings.database]
  }

  /** The world `v` as a finished clone leaves `w`. */
  ghost predicate Cloned(w: World, v: World, place: Place, req: Request) {
    && req.source in w.others && w.others[req.source].settings.database in w.databases
    && req.database in w.databases && req.database in v.databases
    && v.target.Some? && IsCopy(w.others[req.source], v.target.value, place.server, req)
    && v.target.value.settings.database == req.database
    && v.databases == w.databases[req.database := v.databases[req.database]]
    && v.databases[req.database] == (if req.sanitize then place.sanitized(Overlaid(w, req)) else Overlaid(w, req))
    && Lookup(v.snapshots, req.id) == Some(w.databases[req.database])
    && Lookup(v.saved, req.id) == Some(w.target)
  }

  /** The import replaces tables and drops none, so the copy has the source's
      tables exactly when the target had no table that the source lacks. */
  lemma CopyEqualsSource(w: World, v: World, place: Place, req: Request)
    requires Cloned(w, v, place, req) && !req.sanitize
    ensures var source := w.databases[w.others[req.source].settings.database];
            v.databases[req.database] == source <==> w.databases[req.database].Keys <= source.Keys
  {
  }

  // ---- a clone under way --------------------------------------------------

  ghost predicate SameBut<K(!new), V>(m: map<K, V>, n: map<K, V>, k: K) {
    forall j | j != k :: Lookup(m, j) == Lookup(n, j)
  }

  /** `w` differs from the world `base` in which the clone began only where a
      clone may write, and the originals are still there. */
  ghost predicate Safe(base: World, w: World, req: Request) {
    && w.pending == base.pending && w.records == base.records && w.others == base.others
    && SameBut(w.saved, base.saved, req.id)
    && SameBut(w.snapshots, base.snapshots, req.id)
    && SameBut(w.started, base.started, req.id)
    && FilesSafe(w, req.id, base.target)
    && DatabaseSafe(w, req.id, req.database, base.databases)
    && OrderSafe(w, req.id, base.target, base.databases)
  }

  ghost predicate FilesSafe(w: World, id: string, target: Option<Site>) {
    && (Moved(w, id).Some? ==> Moved(w, id) == target)
    && (Moved(w, id).None? && target.Some? ==> w.target == target)
  }

  ghost predicate DatabaseSafe(w: World, id: string, database: Name, databases: map<Name, Tables>) {
    && SameBut(w.databases, databases, database)
    && (id in w.snapshots ==> Lookup(databases, database) == Some(w.snapshots[id]))
    && (id !in w.snapshots ==> w.databases == databases)
  }

  /** The dump stands before the first change, and so does what the marker says
      about it. */
  ghost predicate OrderSafe(w: World, id: string, target: Option<Site>, databases: map<Name, Tables>) {
    && (id !in w.snapshots ==> w.target == target && Moved(w, id).None? && id !in w.started)
    && (id in w.started && !w.started[id] ==> w.target == target && w.databases == databases && Moved(w, id).None?)
  }

  /** The flags say what has been done. */
  ghost predicate FilesTracked(base: World, w: World, req: Request, moved: bool, created: bool) {
    && (moved <==> Moved(w, req.id).Some?)
    && (!created ==> w.target == if moved then None else base.target)
    && (created && !moved ==> base.target.None?)
    && (created ==> req.id in w.snapshots)
  }

  ghost predicate DatabaseTracked(base: World, w: World, req: Request, mutated: bool) {
    && (!mutated ==> w.databases == base.databases)
    && (mutated ==> req.id in w.snapshots)
  }

  lemma SameButUpdate<K(!new), V>(m: map<K, V>, k: K, v: V)
    ensures SameBut(m[k := v], m, k) && SameBut(m - {k}, m, k)
  {
  }

  lemma SameButTrans<K(!new), V>(a: map<K, V>, b: map<K, V>, c: map<K, V>, k: K)
    requires SameBut(a, b, k) && SameBut(b, c, k)
    ensures SameBut(a, c, k) && SameBut(c, a, k)
  {
  }

  lemma PutBack<K(!new), V>(m: map<K, V>, n: map<K, V>, k: K)
    requires SameBut(m, n, k) && k in n
    ensures m[k := n[k]] == n
  {
    var r := m[k := n[k]];
    forall j ensures Lookup(r, j) == Lookup(n, j) {
      if j != k {
        assert Lookup(m, j) == Lookup(n, j);
      }
    }
    assert forall j :: j in r <==> Lookup(r, j).Some?;
    assert forall j :: j in n <==> Lookup(n, j).Some?;
    assert forall j | j in r :: Lookup(r, j) == Some(r[j]);
  }

  lemma KeysKept<V>(m: map<string, V>, n: map<string, V>, id: string, keys: set<string>)
    requires SameBut(m, n, id) && n.Keys <= keys && id in keys
    ensures m.Keys <= keys
  {
    forall j | j in m ensures j in keys {
      assert j != id ==> Lookup(m, j) == Lookup(n, j);
    }
  }

  // ---- what is kept -------------------------------------------------------

  /** What an unfinished clone of `target` and `databases` leaves at any time. */
  ghost predicate Covered(m: Manifest, w: World, target: Option<Site>, databases: map<Name, Tables>) {
    && (m.hadTarget ==> target.Some?)
    && FilesSafe(w, m.id, target)
    && DatabaseSafe(w, m.id, m.database, databases)
    && OrderSafe(w, m.id, target, databases)
  }

  /** Without a complete marker `target` and `databases` are there; with one they
      are there if its clone was recorded as done, and else it covers them. */
  ghost predicate IsKept(w: World, target: Option<Site>, databases: map<Name, Tables>) {
    if w.pending.Set? && !IsRecorded(w, w.pending.manifest.id) then Covered(w.pending.manifest, w, target, databases)
    else w.target == target && w.databases == databases
  }

  predicate IsRecorded(w: World, id: string) {
    Lookup(w.records, id) == Some(Succeeded)
  }

  /** Everything kept for a request belongs to a recorded one. */
  ghost predicate HasKeys(w: World) {
    && w.saved.Keys <= w.records.Keys && w.snapshots.Keys <= w.records.Keys && w.started.Keys <= w.records.Keys
    && (w.pending.Set? ==> w.pending.manifest.id in w.records)
  }

  // ---- recovery -----------------------------------------------------------

  /** The lookups of a recovery that fail and are taken to say that nothing is
      there: the record of the clone, the saved files, their directory, the
      target. */
  datatype Misses = Misses(record: bool, saved: bool, directory: bool, target: bool)

  const NOTHING_MISSED := Misses(false, false, false, false)

  /** `site.reconcile`, or `site.recoverContent` of only one request; whether
      the database password is given, and what the lookups miss. */
  datatype Recovery = Recovery(only: Option<string>, password: bool, misses: Misses)

  predicate SeesRecord(m: Manifest, w: World, r: Recovery) {
    IsRecorded(w, m.id) && !r.misses.record
  }

  predicate SeesSaved(m: Manifest, w: World, r: Recovery) {
    Moved(w, m.id).Some? && !r.misses.saved
  }

  predicate SeesDirectory(m: Manifest, w: World, r: Recovery) {
    m.id in w.saved && !r.misses.directory
  }

  predicate SeesTarget(w: World, r: Recovery) {
    w.target.Some? && !r.misses.target
  }

  /** There is a target where the marker says there was none. */
  predicate SeesCreated(m: Manifest, w: World, r: Recovery) {
    !m.hadTarget && SeesTarget(w, r)
  }

  predicate SeesChange(m: Manifest, w: World, r: Recovery) {
    SeesSaved(m, w, r) || SeesCreated(m, w, r)
  }

  /** A recovery of only one request trusts the marker's evidence. */
  predicate IsUnstarted(m: Manifest, w: World, r: Recovery) {
    r.only.Some? && Lookup(w.started, m.id) == Some(false)
  }

  predicate Replays(m: Manifest, w: World, r: Recovery) {
    if r.only.Some? then Lookup(w.started, m.id) == Some(true) else SeesChange(m, w, r)
  }

  /** The recoveries that touch no file. */
  predicate LeavesFiles(m: Manifest, w: World, r: Recovery) {
    SeesRecord(m, w, r) || IsUnstarted(m, w, r) || !SeesChange(m, w, r)
  }

  function UndoneTarget(m: Manifest, w: World, r: Recovery): Option<Site> {
    if SeesSaved(m, w, r) then Moved(w, m.id) else if SeesCreated(m, w, r) then None else w.target
  }

  function UndoneDatabases(m: Manifest, w: World, r: Recovery): map<Name, Tables> {
    if Replays(m, w, r) && m.id in w.snapshots then w.databases[m.database := w.snapshots[m.id]] else w.databases
  }

  predicate CanReplay(m: Manifest, w: World, r: Recovery) {
    m.id in w.snapshots && r.password && !(r.only.Some? && IsSystem(m.database))
  }

  /** A rename does not replace a directory that is not empty. */
  predicate CanRename(w: World, r: Recovery) {
    w.target.Some? && r.misses.target ==> w.target.value.files == map[]
  }

  /** What a recovery leaves when it takes the marker away. */
  function RecoveredTarget(m: Manifest, w: World, r: Recovery): Option<Site> {
    if SeesRecord(m, w, r) || IsUnstarted(m, w, r) then w.target else UndoneTarget(m, w, r)
  }

  function RecoveredDatabases(m: Manifest, w: World, r: Recovery): map<Name, Tables> {
    if SeesRecord(m, w, r) then w.databases else UndoneDatabases(m, w, r)
  }

  /** The recoveries that nothing but a failing environment stands in the way of. */
  predicate Recovers(m: Manifest, w: World, r: Recovery) {
    && (r.only.Some? ==> r.only.value == m.id)
    && (SeesRecord(m, w, r) || (r.only.Some? ==> m.id in w.started))
    && (SeesRecord(m, w, r) || IsUnstarted(m, w, r) || RollsBack(m, w, r))
  }

  predicate RollsBack(m: Manifest, w: World, r: Recovery) {
    && (m.hadTarget ==> SeesSaved(m, w, r) || (r.only.None? && (SeesDirectory(m, w, r) || SeesTarget(w, r))))
    && (Replays(m, w, r) ==> CanReplay(m, w, r))
    && (SeesSaved(m, w, r) ==> CanRename(w, r))
  }

  /** Nothing on the disk shows that the databases have changed. */
  ghost predicate IsOrphan(m: Manifest, w: World, databases: map<Name, Tables>) {
    !SeesChange(m, w, Recovery(None, true, NOTHING_MISSED)) && w.databases != databases
  }

  /** The files that come back to the target: those that were moved if they are
      seen; what stands there unless it is taken for the clone's; none if what
      the clone made is seen. */
  ghost predicate FilesReturn(m: Manifest, w: World, target: Option<Site>, r: Recovery) {
    if IsUnstarted(m, w, r) then true
    else if Moved(w, m.id).Some? then SeesSaved(m, w, r) || (w.target == target && !SeesCreated(m, w, r))
    else if target.Some? then !SeesCreated(m, w, r)
    else w.target.None? || SeesTarget(w, r)
  }

  ghost predicate DatabasesReturn(m: Manifest, w: World, databases: map<Name, Tables>, r: Recovery) {
    (Replays(m, w, r) && m.id in w.snapshots) || w.databases == databases
  }

  /** For every state an unfinished clone can leave and every recovery: exactly
      when the original target comes back, and exactly when the original
      databases do. */
  lemma RecoveryReturns(m: Manifest, w: World, target: Option<Site>, databases: map<Name, Tables>, r: Recovery)
    requires Covered(m, w, target, databases) && !IsRecorded(w, m.id)
    ensures RecoveredTarget(m, w, r) == target <==> FilesReturn(m, w, target, r)
    ensures RecoveredDatabases(m, w, r) == databases <==> DatabasesReturn(m, w, databases, r)
  {
    if m.id in w.snapshots {
      PutBack(w.databases, databases, m.database);
    }
  }

  /** When no lookup fails: the target comes back exactly when the marker is
      right about it, or the files were moved, or nothing was started; the
      databases exactly when the marker has evidence that is used, or saved
      files or a created target are there, or they have not changed. */
  lemma SeeingRecoveryReturns(m: Manifest, w: World, target: Option<Site>, databases: map<Name, Tables>, r: Recovery)
    requires Covered(m, w, target, databases) && !IsRecorded(w, m.id)
    requires r.misses == NOTHING_MISSED && Recovers(m, w, r)
    ensures RecoveredTarget(m, w, r) == target <==>
              IsRight(m, target) || Moved(w, m.id).Some? || IsUnstarted(m, w, r)
    ensures RecoveredDatabases(m, w, r) == databases <==> r.only.Some? || !IsOrphan(m, w, databases)
  {
    RecoveryReturns(m, w, target, databases, r);
  }

  /** And it goes through, unless the password is missing or the marker took the
      target for a created one before there was a dump. */
  lemma SeeingRecoveryGoes(m: Manifest, w: World, target: Option<Site>, databases: map<Name, Tables>, r: Recovery)
    requires Covered(m, w, target, databases) && !IsRecorded(w, m.id)
    requires r.misses == NOTHING_MISSED && r.only.None?
    ensures Recovers(m, w, r) <==>
              SeesChange(m, w, r) ==> r.password && (IsRight(m, target) || m.id in w.snapshots)
  {
  }

  /** The records once an interrupted request is closed. */
  function Closed(records: map<string, Record>, id: string): map<string, Record> {
    if Lookup(records, id) == Some(InProgress) then records[id := Refused] else records
  }

  /** A completed recovery closes the request, unless it was recorded as done, and
      leaves nothing of its own beside the target. */
  ghost predicate IsCleanedUp(m: Manifest, u: World, r: Recovery, v: World) {
    if SeesRecord(m, u, r) then v.records == u.records && v.saved == u.saved else
      && v.records == Closed(u.records, m.id)
      && (!IsUnstarted(m, u, r) && (SeesChange(m, u, r) || SeesDirectory(m, u, r)) ==> m.id !in v.saved)
  }

  /** How a rollback can stop. */
  ghost predicate IsHalfBack(m: Manifest, u: World, r: Recovery, v: World) {
    && v == u.(target := v.target, saved := v.saved, databases := v.databases, records := v.records)
    && SameBut(v.databases, u.databases, m.database)
    && (v.databases != u.databases ==> Replays(m, u, r) && m.id in u.snapshots)
    && ((v.target == u.target && v.saved == u.saved) || v.databases == UndoneDatabases(m, u, r))
    && (!SeesChange(m, u, r) ==> v.target == u.target)
    && (Moved(u, m.id).None? ==> Moved(v, m.id).None?)
    && (SeesSaved(m, u, r) ==>
          Moved(v, m.id) == Moved(u, m.id) || (Moved(v, m.id).None? && v.target == Moved(u, m.id)))
  }

  /** A recovery that sees everything and stops can be repeated, and hides
      nothing. */
  lemma HalfBackKept(m: Manifest, u: World, r: Recovery, v: World, target: Option<Site>, databases: map<Name, Tables>)
    requires u.pending == v.pending == Set(m) && IsKept(u, target, databases) && IsHalfBack(m, u, r, v)
    requires IsRecorded(u, m.id) == IsRecorded(v, m.id) && (SeesRecord(m, u, r) ==> v == u)
    requires r.misses == NOTHING_MISSED
    ensures IsRight(m, target) || Moved(u, m.id).Some? || IsRecorded(u, m.id) ==> IsKept(v, target, databases)
    ensures r.only.None? && !IsOrphan(m, u, databases) ==> !IsOrphan(m, v, databases)
  {
    if !IsRecorded(u, m.id) {
      if IsRight(m, target) || Moved(u, m.id).Some? {
        HalfBackCovered(m, u, r, v, target, databases);
      }
      if r.only.None? && !IsOrphan(m, u, databases) {
        HalfBackOrphan(m, u, r, v, target, databases);
      }
    }
  }

  lemma HalfBackCovered(m: Manifest, u: World, r: Recovery, v: World, target: Option<Site>, databases: map<Name, Tables>)
    requires Covered(m, u, target, databases) && IsHalfBack(m, u, r, v)
    requires r.misses == NOTHING_MISSED && (IsRight(m, target) || Moved(u, m.id).Some?)
    ensures Covered(m, v, target, databases)
  {
    SameButTrans(v.databases, u.databases, databases, m.database);
  }

  lemma HalfBackOrphan(m: Manifest, u: World, r: Recovery, v: World, target: Option<Site>, databases: map<Name, Tables>)
    requires Covered(m, u, target, databases) && IsHalfBack(m, u, r, v) && !IsRecorded(u, m.id)
    requires r.misses == NOTHING_MISSED && r.only.None? && !IsOrphan(m, u, databases)
    ensures !IsOrphan(m, v, databases)
  {
    RecoveryReturns(m, u, target, databases, r);
  }

  // ---- runs ---------------------------------------------------------------

  datatype Event = Clone(req: Request) | Recover(recovery: Recovery)

  /** `v` still has the marker of `w` and what it was found with. */
  ghost predicate Stopped(w: World, v: World) {
    v == w.(records := v.records)
  }

  /** What one request may do to the world, whatever fails. */
  ghost predicate IsStep(w: World, place: Place, req: Request, o: Outcome, v: World) {
    // only the target and its database change, as far as the answer allows
    && v.others == w.others
    && SameBut(v.databases, w.databases, req.database)
    && (!w.pending.Absent? ==> Stopped(w, v))
    && (o.Committed? || o.PostCommit? ==> w.pending.Absent? && Cloned(w, v, place, req))
    && (o.Rejected? ==> v.target == w.target && v.databases == w.databases && (v.pending.Torn? ==> w.pending.Torn?))
    && (!v.pending.Set? && !o.Committed? && !o.Died? ==> v.target == w.target && v.databases == w.databases)
    && (o.PostCommit? ==> !v.pending.Absent?)
    // the source keeps its database, whatever the request says
    && (v.databases != w.databases ==> HasUsableSource(w, place, req))
    // a marker that is new names the request, and with evidence the disk shows
    // that databases have changed
    && (v.pending.Set? && !w.pending.Set? ==>
          && v.pending.manifest == ManifestOf(w, req)
          && (req.evidence && !req.blind ==> !IsOrphan(v.pending.manifest, v, w.databases)))
  }

  ghost predicate IsAdmitted(w: World, id: string) {
    && Lookup(w.records, id) == Some(InProgress)
    && id !in w.saved && id !in w.snapshots && id !in w.started
    && (w.pending.Set? ==> w.pending.manifest.id != id)
  }

  /** What an admitted request leaves before its end is recorded. */
  ghost predicate CloneEnds(base: World, place: Place, req: Request, o: Outcome, w: World) {
    && w.records == base.records && w.others == base.others
    && Safe(base, w.(pending := base.pending), req)
    && (w.pending == base.pending || (base.pending.Absent? && (w.pending == Torn || w.pending == Set(ManifestOf(base, req)))))
    && (!w.pending.Set? ==> w.target == base.target && w.databases == base.databases)
    && (!base.pending.Absent? ==> w == base)
    && (o.Committed? ==> w.pending.Set? && base.pending.Absent? && Cloned(base, w, place, req))
    && (o.Rejected? ==> w.target == base.target && w.databases == base.databases && (w.pending.Torn? ==> base.pending.Torn?))
    && (o.Committed? || o.Rejected? || o.RecoveryRequired? || o.Died?)
    && (w.databases != base.databases ==> HasUsableSource(base, place, req))
    && (req.evidence && w.databases != base.databases ==>
          w.target.Some? && (base.target.Some? ==> Moved(w, req.id).Some?))
  }

  /** What a request leaves from its marker on. */
  ghost predicate MarkedEnds(base: World, place: Place, req: Request, o: Outcome, w: World) {
    && w.records == base.records && w.others == base.others
    && Safe(base, w.(pending := base.pending), req)
    && (w.pending == base.pending || w.pending.Absent?)
    && (w.pending.Absent? ==> w.target == base.target && w.databases == base.databases)
    && (o.Committed? ==> w.pending == base.pending && Cloned(base, w, place, req))
    && (o.Rejected? ==> w.target == base.target && w.databases == base.databases)
    && (o.RecoveryRequired? ==> w.pending == base.pending)
    && (o.Committed? || o.Rejected? || o.RecoveryRequired? || o.Died?)
    && (req.evidence && w.databases != base.databases ==>
          w.target.Some? && (base.target.Some? ==> Moved(w, req.id).Some?))
  }

  /** The marker itself does not matter to what a clone keeps. */
  lemma EndsUnmarked(base: World, m: Manifest, place: Place, req: Request, o: Outcome, w: World)
    requires base.pending.Absent? && m == ManifestOf(base, req) && HasUsableSource(base, place, req)
    requires MarkedEnds(base.(pending := Set(m)), place, req, o, w)
    ensures CloneEnds(base, place, req, o, w)
    ensures CanCopy(base.(pending := Set(m)), place, req) <==> CanCopy(base, place, req)
  {
  }

  lemma EndKeys(base: World, place: Place, req: Request, o: Outcome, w: World)
    requires CloneEnds(base, place, req, o, w) && HasKeys(base) && req.id in base.records
    ensures HasKeys(w)
  {
    KeysKept(w.saved, base.saved, req.id, w.records.Keys);
    KeysKept(w.snapshots, base.snapshots, req.id, w.records.Keys);
    KeysKept(w.started, base.started, req.id, w.records.Keys);
  }

  /** The end of a request, recorded or not, is a step that covers what was there. */
  lemma EndCovered(base: World, place: Place, req: Request, o: Outcome, w: World)
    requires CloneEnds(base, place, req, o, w) && IsAdmitted(base, req.id)
    ensures base.pending.Absent? && w.pending.Set? ==> Covered(w.pending.manifest, w, base.target, base.databases)
  {
  }

  lemma EndIsStep(base: World, place: Place, req: Request, o: Outcome, w: World)
    requires CloneEnds(base, place, req, o, w) && IsAdmitted(base, req.id)
    ensures IsStep(base, place, req, o, w)
    ensures o.Committed? ==> IsStep(base, place, req, PostCommit, w)
  {
  }

  lemma EndRecorded(base: World, place: Place, req: Request, o: Outcome, u: World, v: World)
    requires CloneEnds(base, place, req, o, u) && IsAdmitted(base, req.id) && HasKeys(base) && !o.Committed?
    requires v == u || v == u.(records := u.records[req.id := Refused])
    ensures HasKeys(v) && SameBut(v.records, base.records, req.id)
    ensures IsStep(base, place, req, o, v) && IsStep(base, place, req, Died, v)
  {
    EndKeys(base, place, req, o, u);
    EndIsStep(base, place, req, o, u);
  }

  lemma EndKept(base: World, place: Place, req: Request, o: Outcome, u: World, v: World, target: Option<Site>,
                databases: map<Name, Tables>)
    requires CloneEnds(base, place, req, o, u) && IsAdmitted(base, req.id) && IsKept(base, target, databases)
    requires v == u || v == u.(records := u.records[req.id := Refused])
    ensures IsKept(v, target, databases)
  {
    if base.pending.Absent? {
      EndCovered(base, place, req, o, u);
      if v.pending.Set? {
        assert v.pending.manifest.id == req.id && !IsRecorded(v, req.id);
        CoveredUnrecorded(v.pending.manifest, u, v, target, databases);
      }
    } else {
      KeptUnrecorded(base, v, req.id, target, databases);
    }
  }

  lemma CoveredUnrecorded(m: Manifest, u: World, v: World, target: Option<Site>, databases: map<Name, Tables>)
    requires v == u.(records := v.records)
    ensures Covered(m, u, target, databases) <==> Covered(m, v, target, databases)
  {
  }

  /** The record of another request than the marker's does not matter. */
  lemma KeptUnrecorded(u: World, v: World, id: string, target: Option<Site>, databases: map<Name, Tables>)
    requires v == u || v == u.(records := u.records[id := Refused])
    requires IsKept(u, target, databases) && (u.pending.Set? ==> u.pending.manifest.id != id)
    ensures IsKept(v, target, databases)
  {
    if u.pending.Set? {
      assert IsRecorded(v, u.pending.manifest.id) == IsRecorded(u, u.pending.manifest.id);
      CoveredUnrecorded(u.pending.manifest, u, v, target, databases);
    }
  }

  /** That the request is recorded as begun does not matter. */
  lemma Unrecorded(base: World, record: Record, place: Place, req: Request, o: Outcome, v: World)
    ensures var w := base.(records := base.records[req.id := record]);
            && (IsStep(w, place, req, o, v) <==> IsStep(base, place, req, o, v))
            && (Cloned(w, v, place, req) <==> Cloned(base, v, place, req))
            && (HasUsableSource(w, place, req) <==> HasUsableSource(base, place, req))
            && (req.source in base.others ==> (CanCopy(w, place, req) <==> CanCopy(base, place, req)))
  {
  }

  /** What one recovery may do. */
  ghost predicate IsRecoveryStep(w: World, r: Recovery, o: Outcome, v: World) {
    && v.others == w.others && v.snapshots == w.snapshots
    && (v.pending == w.pending || v.pending.Absent?)
    && (!w.pending.Set? ==> v == w)
    && (w.pending.Set? ==> SameBut(v.databases, w.databases, w.pending.manifest.database))
    && (w.pending.Set? && v.pending.Absent? ==>
          && Recovers(w.pending.manifest, w, r)
          && v.target == RecoveredTarget(w.pending.manifest, w, r)
          && v.databases == RecoveredDatabases(w.pending.manifest, w, r))
    && (o.RolledBack? ==> w.pending.Set? && v.pending.Absent? && !LeavesFiles(w.pending.manifest, w, r))
    && (o.Cleared? ==> w.pending.Set? && v.pending.Absent? && LeavesFiles(w.pending.manifest, w, r))
  }

  ghost predicate IsEventStep(w: World, place: Place, e: Event, o: Outcome, v: World) {
    match e
    case Clone(req) => IsStep(w, place, req, o, v)
    case Recover(r) => IsRecoveryStep(w, r, o, v)
  }

  ghost predicate IsRun(worlds: seq<World>, place: Place, events: seq<Event>, outcomes: seq<Outcome>) {
    && |worlds| == |events| + 1 && |outcomes| == |events|
    && forall i | 0 <= i < |events| :: IsEventStep(worlds[i], place, events[i], outcomes[i], worlds[i + 1])
  }

  /** No request of a run and no marker at its start names the database. */
  ghost predicate IsUnnamed(w: World, events: seq<Event>, name: Name) {
    && (w.pending.Set? ==> w.pending.manifest.database != name)
    && forall e | e in events && e.Clone? :: e.req.database != name
  }

  lemma {:induction false} RunKeeps(
      worlds: seq<World>, place: Place, events: seq<Event>, outcomes: seq<Outcome>, k: nat, name: Name)
    requires IsRun(worlds, place, events, outcomes) && k <= |events|
    requires IsUnnamed(worlds[0], events, name)
    ensures Lookup(worlds[k].databases, name) == Lookup(worlds[0].databases, name)
    ensures worlds[k].pending.Set? ==> worlds[k].pending.manifest.database != name
  {
    if k != 0 {
      RunKeeps(worlds, place, events, outcomes, k - 1, name);
      assert IsEventStep(worlds[k - 1], place, events[k - 1], outcomes[k - 1], worlds[k]);
      assert events[k - 1] in events;
    }
  }

  /** A marker that stays stops every request until a recovery. */
  lemma {:induction false} RunStops(
      worlds: seq<World>, place: Place, events: seq<Event>, outcomes: seq<Outcome>, i: nat, j: nat)
    requires IsRun(worlds, place, events, outcomes) && i <= j <= |events|
    requires !worlds[i].pending.Absent? && forall k | i <= k < j :: events[k].Clone?
    ensures Stopped(worlds[i], worlds[j])
    ensures i < j ==> !outcomes[j - 1].Committed? && !outcomes[j - 1].PostCommit?
  {
    if i < j {
      RunStops(worlds, place, events, outcomes, i, j - 1);
      assert IsEventStep(worlds[j - 1], place, events[j - 1], outcomes[j - 1], worlds[j]);
    }
  }

  /** No lookup fails. */
  predicate IsSeeing(e: Event) {
    match e
    case Clone(req) => !req.blind
    case Recover(r) => r.misses == NOTHING_MISSED
  }

  /** Every request has evidence, and every recovery goes by the disk. */
  predicate AreByDisk(events: seq<Event>) {
    forall e | e in events :: if e.Clone? then e.req.evidence else e.recovery.only.None?
  }

  /** Every recovery is of only one request and goes by its evidence. */
  predicate AreByEvidence(events: seq<Event>) {
    forall e | e in events && e.Recover? :: e.recovery.only.Some?
  }

  /** The marker of an unfinished clone is right about the target. */
  ghost predicate IsMarkedRight(w: World, target: Option<Site>) {
    w.pending.Set? && !IsRecorded(w, w.pending.manifest.id) ==> IsRight(w.pending.manifest, target)
  }

  /** The disk shows that the databases have changed, if they have. */
  ghost predicate IsShown(w: World, databases: map<Name, Tables>) {
    w.pending.Set? ==> !IsOrphan(w.pending.manifest, w, databases)
  }

  /** The event is a recovery by the disk alone that takes an orphan's marker away. */
  ghost predicate DropsOrphan(e: Event, w: World, v: World, databases: map<Name, Tables>) {
    && e.Recover? && e.recovery.only.None?
    && w.pending.Set? && !IsRecorded(w, w.pending.manifest.id) && v.pending.Absent?
    && IsOrphan(w.pending.manifest, w, databases)
  }

  /** When nothing is missed, taking a right marker away loses what was settled
      exactly if it is an orphan's. */
  lemma DroppedMarker(w: World, r: Recovery, o: Outcome, v: World, target: Option<Site>, databases: map<Name, Tables>)
    requires w.pending.Set? && v.pending.Absent? && IsRecoveryStep(w, r, o, v)
    requires r.misses == NOTHING_MISSED && IsKept(w, target, databases) && IsMarkedRight(w, target)
    ensures IsKept(v, target, databases) <==> !DropsOrphan(Recover(r), w, v, databases)
  {
    if !IsRecorded(w, w.pending.manifest.id) {
      SeeingRecoveryReturns(w.pending.manifest, w, target, databases, r);
    }
  }
}
