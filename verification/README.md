# Verified models of operations-engine

operations-engine is the root-side worker of a web hosting panel. It edits
crontabs, writes systemd timers, copies Drupal sites, switches releases, puts
content management systems into safe mode and installs pinned tools. This
project models the parts whose correctness does not show in any single function
and proves it in Dafny.

| file | what it models |
|---|---|
| `CloneStates.dfy`, `SiteClone.dfy` | copying a Drupal site over a staging site, with its marker, its compensation and the recovery by `site.reconcile` and `site.recoverContent`: what they find and leave, and their steps |
| `SafeMode.dfy` | safe mode of WordPress, Joomla and Drupal sites |
| `ReleaseSwitch.dfy` | deploy, rollback, the checkpoints around the link switch, reconciling an interruption, and the retention of releases |
| `DrupalUpdate.dfy` | database updates under maintenance mode |
| `CronCalendar.dfy` | the translation of cron schedules into systemd calendar expressions |
| `ZipArchive.dfy` | the ZIP reader of the rclone installer and the writer of its tests |
| `BackupTab.dfy` | the crontab as a store of backup jobs, and the commands its lines run |
| `CronCommands.dfy` | what cron and the shell make of a crontab line |
| `AgentTab.dfy`, `AgentTimer.dfy` | the crontab as a map from agents to schedules; the timer unit, from the schedule to the instants it fires at |
| `UnitFiles.dfy` | systemd unit files, written and read |
| `Redaction.dfy`, `BackupListing.dfy` | hiding passwords in legacy cron lines; what the list of jobs shows of them |
| `PhpSettings.dfy` | the override block of a site copy's `settings.php`, and what PHP makes of it |
| `AgentLog.dfy` | the line-bounded log of an agent |
| `ImageReferences.dfy` | the image references the engine pulls |
| `Schedules.dfy`, `LineStore.dfy` | schedules; line editing shared by both crontabs |
| `Text.dfy`, `Octets.dfy`, `Steps.dfy` | Rust string operations, bytes, steps that can fail |

`dafny verify dfyconfig.toml` checks everything.

**Protocols.** `SiteClone`, `SafeMode` and `ReleaseSwitch` are classes whose
fields are what survives the process: files, databases, records, links. Each
step is a method that can do its work, fail, or be the last step of the process
(`Steps.Status`); a step that is not atomic can stop half-way and leave arbitrary
contents. `Steps.Environment.faults` counts, for the proofs only, how often the
environment did not do what it was asked to, so that a contract can also say
that a request succeeds when nothing goes wrong; in a `reliable` environment
nothing does, which the concrete runs use. Its ghost field `alive` says that the
process has not died, so that an answer tells a death from a refusal. Where the
code asks a file system lookup that answers "absent" also when it fails, the
request says whether the lookup misses what is there (`blind`, `misses`). `Serve`
methods are the statements about whole runs.

**Where a promise has an exact condition.** In these places the code does less
than its comments or name suggest. The model follows the code, and the condition
is proved in both directions.

- "All other lines are preserved byte for byte" in a crontab edit
  (src/backup_schedule.rs:432). `str::lines` drops the carriage return of every
  line ended by a newline, so this holds exactly when no kept line that ends with
  a newline has one before it; a last line without a newline loses its own with
  the second edit (`BackupTab.EditPreserves`, `AgentTab.RunLeavesForeign`;
  instances `BackupTab.CarriageReturnLost`, `AgentTab.CarriageReturnLost`).
- The list of jobs redacts a line whose command holds a password. The password is
  found in the command with single spaces between its words and redacted in the
  raw line. For a line with no marker before the password's own, what is listed is
  independent of the password exactly when that one stands in the raw line
  (`BackupListing.ListedPassword`); for the lines of the old panel, with any text
  around the dump command, exactly when the three words of the marker are one
  space apart (`BackupListing.LegacyPasswordListed`; instances
  `BackupListing.PanelLineHidden`, `BackupListing.DoubleSpaceListed`).
- `redact_legacy` looks for the MariaDB marker first and the PostgreSQL marker
  second. What it prints is independent of a PostgreSQL password exactly when the
  quoted password does not contain the MariaDB marker
  (`Redaction.PostgresPasswordHidden`; instance `Redaction.MarkerAsPasswordShows`).
- A clone's database import replaces tables and drops none, so the copy has the
  source's tables exactly when the target had no table that the source lacks
  (`CloneStates.CopyEqualsSource`; instance `SiteClone.OldTableStays`).
- "an interrupted run leaves `pending.json` that `site.reconcile` rolls back"
  (docs/protocol.md:667-668). It takes the disk's word for what the clone did.
  When no lookup fails, the target comes back exactly when the marker is right
  about it or the files were moved, and the databases exactly when saved files or
  a created target are there or they have not changed
  (`CloneStates.SeeingRecoveryReturns`; for lookups that fail,
  `CloneStates.RecoveryReturns`; instances `SiteClone.JunkStays`,
  `SiteClone.TargetRemoved`, `SiteClone.PartialCopyStays`). Over whole runs, what
  was settled is lost exactly with the markers of such databases, and there are
  none when every request has evidence and recoveries go by the disk, or when
  every recovery goes by the evidence (`SiteClone.Scope.Serve`).
- The manifest of a clone says whether there was a target. It is right exactly
  when the lookup did not miss one (`SiteClone.Scope.Execute`).
- `update_db` puts maintenance mode back "whatever happened". When the mode was
  on before, it is not set again, so it is back exactly when the updates did not
  end with it off; a mode that was off is back in every answer but one
  (`DrupalUpdate.DrupalSite.UpdateDb`; instance
  `DrupalUpdate.ModeLost`).
- Safe mode stores what was on before anything is switched off, and a second
  switching on keeps it exactly when the stored list is seen or the same things
  are on (`SafeMode.PluginSite.Handle`, `SafeMode.MaintenanceSite.Handle`; instances
  `SafeMode.ListLost`, `SafeMode.ModeForgotten`).
- A deploy or rollback in which no step fails goes through exactly when its
  release can be staged or is there and valid, no checkpoint is open, no
  checkpoint file was left before its rename, no link for the target was left, and
  the sweep sees the checkpoints of the records it drops
  (`ReleaseSwitch.Site.Switch`; instances `ReleaseSwitch.StrayCheckpointStops`,
  `ReleaseSwitch.StrayLinkStops`, `ReleaseSwitch.MissedCheckpointStops`).
- Retention is described as "always keeping `active_release`"
  (src/deploy/cleanup.rs:20-21). It runs after the lock is dropped, for the release
  its own request activated, so the link still points at a release exactly when
  it points at that one or at one that is new enough (`ReleaseSwitch.Site.Retain`; instance
  `ReleaseSwitch.ServedReleaseRetired`).
- A checkpoint that has outlived its record can be met by a later request with
  the same id. The verdict on that one is true exactly unless the old checkpoint
  says that a switch took place (`ReleaseSwitch.Site.Recover`).
- Editing one agent's lines keeps another agent's lines exactly as far as they do
  not carry both tags (`AgentTab.EditedOwned`; instance
  `AgentTab.TwoTagsGoTogether`); the run theorems are about tabs in which no line
  carries two.

## Model

| member | source | states |
|---|---|---|
| SiteClone.Scope.Execute | src/drupal_clone.rs:575-721 | for every pattern of failures and for death at any step: without a complete marker the target's files and databases are the settled ones, and with one they are covered: the moved files or the target in place, the dump before any change; a new marker is right about the target if and only if the lookup did not miss it, and with evidence the disk shows any change of the databases; only the target and the request's database change; the source's own database never does; a rejected request changes neither target nor databases and leaves no broken marker, and one with evidence for a database of the server's own is always rejected; an existing marker stops the request; what is settled moves only with a recorded commit; a request without a fault commits if and only if it is acceptable, settings text, nested roots and both health checks included; otherwise it gets exactly the answer that its record, the marker and the evidence determine; and a new request is then recorded as succeeded or refused, never left open; after a commit PHP finds the request's database, user, password, salt and options and the place's server in the copy's settings, whatever the source's had set, and a sanitizing request's database is the sanitized one |
| SiteClone.Scope.Serve | src/site_reconcile.rs:711-947 | over every run of requests and recoveries: databases that nothing names never change; a marker stops every request until a recovery; when no lookup fails, what was settled is lost exactly by the recoveries that take an orphan's marker away, of which there are none when requests with evidence are recovered by the disk or every recovery goes by the evidence |
| CloneStates.RunStops | src/drupal_clone.rs:817-819 | by induction over a run, from a marker on until the next recovery nothing but records changes, and no request is answered with success |
| CloneStates.RunKeeps | src/drupal_clone.rs:575-721 | by induction over a run, a database that no request and no marker names keeps its tables |
| CloneStates.RecoveryReturns | src/site_reconcile.rs:788-928 | for every state an unfinished clone can leave and every recovery, whatever its lookups miss: exactly when the target it leaves is the original one, and exactly when the databases are |
| CloneStates.SeeingRecoveryReturns | src/site_reconcile.rs:788-928 | when no lookup fails: the target comes back if and only if the marker is right about it or the files were moved or nothing was started; the databases if and only if the evidence is used, or saved files or a created target are there, or they have not changed |
| CloneStates.SeeingRecoveryGoes | src/site_reconcile.rs:788-845 | when no lookup fails, `site.reconcile` takes the marker away if and only if it finds nothing changed, or has the password and a dump to go back to |
| CloneStates.HalfBackKept | src/site_reconcile.rs:817-947 | a recovery that sees everything and stops anywhere can be repeated, if the marker is right or the files were moved, and makes no orphan |
| CloneStates.DroppedMarker | src/site_reconcile.rs:922-947 | when no lookup fails, taking a right marker away keeps what was settled if and only if it is not an orphan's, or the evidence is used |
| SiteClone.Scope.Recover | src/site_reconcile.rs:711-947 | for every pattern of failures and for death at any step: the marker goes only with exactly the target and the databases that the state and the lookups determine; what was settled is kept exactly as far as these are it; a recovery that stops half-way can be repeated; without a fault the marker goes if and only if nothing stands in the way, and the answer says whether files were put back; a recovery that takes the marker away without a fault leaves no saved directory it has seen and no open record; one by the evidence that succeeds has closed the record, whatever failed |
| SiteClone.Scope.Undo | src/site_reconcile.rs:846-928 | database first, then files; where it can stop, and what it leaves when it does not, the saved directory included |
| SiteClone.Scope.Handle | src/site_reconcile.rs:711-947 | one request or recovery: when it misses nothing, what was settled is lost if and only if an orphan's marker is taken away |
| SiteClone.JunkStays | src/site_reconcile.rs:793-794 | no target, a failed import, a failed load to undo it, the copy removed: the recovery answers that nothing was touched, takes the marker away and leaves the database |
| SiteClone.TargetRemoved | src/drupal_clone.rs:808 | a request that missed the target and died: the recovery removes that target |
| SiteClone.PartialCopyStays | src/site_reconcile.rs:788-794 | a recovery that misses the saved files leaves the partial copy and takes the marker away |
| CloneStates.CopyEqualsSource | src/drupal_clone.rs:932-963 | after a committed clone the copy's tables are the source's if and only if the target had no table the source lacks |
| SiteClone.OldTableStays | src/drupal_clone.rs:932-963 | a committed clone over a database with a table the source lacks: the copy has that table |
| SiteClone.Scope.CloneWithRecovery | src/drupal_clone.rs:732-1021 | the marker is complete before anything else is written; whatever happens, the originals stay covered; success only from an absent marker, and without a fault exactly if the source is usable and can be copied; without a fault an unusable source is rejected, a marker in the way and a failed copy with evidence ask for a recovery, and any other failed copy is rejected |
| SiteClone.Scope.CloneUnderMarker | src/drupal_clone.rs:821-1021 | the marker is taken away only when target and databases are the original ones; with recovery evidence a failure keeps the marker; without, and without a fault, it goes |
| SiteClone.Scope.Work | src/drupal_clone.rs:821-997 | the forward part never endangers the originals, changes no database before there is a new target, and its three flags say exactly what the compensation has to undo; completed, it is a clone |
| SiteClone.Scope.Compensate | src/drupal_clone.rs:999-1017 | for every subset of its steps that fail the originals stay covered, and success, which needs no fault, means target and databases are the original ones |
| SiteClone.Scope.TakeSnapshot | src/drupal_clone.rs:825-885 | a recorded snapshot holds exactly the target database's tables, the evidence stands only beside one, and nothing else changed |
| SiteClone.Scope.MoveAside | src/drupal_clone.rs:886-892 | an existing target is at its place or in the saved directory, never in both and never in neither |
| SiteClone.Scope.FillTarget | src/drupal_clone.rs:893-930 | completed, the target is the source with a tail behind its settings that makes PHP see the copy's own connection, salt and options, and Drush reports those; without a fault it fails exactly on a text that holds `?>` or the source's path; a failure before the directory exists leaves the target alone |
| SiteClone.Scope.CopySettings | src/drupal_clone.rs:298-341 | the rewritten text exists if and only if the old one holds neither `?>` nor the source's path; it begins with the old one, and whatever that has set, running the rest ends with the request's database, user, password, salt and options, the place's server as host, and nothing else changed |
| SiteClone.Scope.ReplaceDatabase | src/drupal_clone.rs:932-965 | only the request's database changes, and not before the flag says so; completed, it is the old tables with the source's over them |
| SiteClone.Scope.CheckCopy | src/drupal_clone.rs:967-996 | sanitizing touches only the request's database, although it runs on whichever database the copy's settings name; it happens exactly if it is asked for, and leaves what Drush makes of the tables; without a fault the check succeeds if and only if the copy answers with the request's database and boots, before and after |
| SiteClone.Scope.Load | src/drupal_clone.rs:1023-1052 | a completed load leaves exactly the dump, and no load touches another database |
| SiteClone.Scope.CheckSource | src/drupal_clone.rs:755-796 | without a fault a source passes if and only if neither root is within the other, it exists with readable settings, uses MySQL on the given server under a valid name, and that is not the target's database |
| CloneStates.WithinIsPrefix | src/drupal_clone.rs:755-757 | one root is within another if and only if its components begin with the other's |
| SiteClone.Scope.Commit | src/drupal_clone.rs:698-720 | what is settled moves with the durable record of the commit, and the marker goes only after it; a lost record leaves marker and world as they are |
| SafeMode.PluginSite.Handle | src/cms_safe_mode.rs:856-943 | for every pattern of partial effects, failures and death: what was on when the list was stored is on or on the list, unless a request to switch on overlooks the list; a successful one keeps what has to come back if and only if it sees the list or the same extensions are on; only switching off lets go of a list that is seen, and then all of it is on; `Incomplete(n)` counts exactly what is missing; without a fault a request succeeds if and only if the extensions it has to list are few enough and validly named, the site is no network, and nothing is on in safe mode; the answer's mode, its `changed` and its list of extensions are exactly what the request found and did, and the status reports the stored list when it is seen |
| SafeMode.PluginSite.Serve | src/cms_safe_mode.rs:737-806 | over every run of requests without other changes, unless a stored list was overlooked, exactly the extensions that were on before are on whenever no list is left, and they are the list otherwise |
| SafeMode.ListLost | src/cms_safe_mode.rs:822-833 | for every set of extensions: on, on again with the list overlooked, off; all three succeed and nothing is on |
| SafeMode.BadNameStops | src/cms_safe_mode.rs:382-390 | for every set of extensions and every name that is empty or too long, begins with `-`, `.` or `/`, or holds `..`, a blank or a character of the shell: one such extension makes switching on fail, although no step does |
| SafeMode.TooManyStop | src/cms_safe_mode.rs:441-443 | so do more than two thousand extensions |
| SafeMode.PluginSite.TurnOn | src/cms_safe_mode.rs:880-929 | success means nothing is on and the list is what was on; a failure leaves everything as it was or the list, or has put everything back, which a refusal does whenever the steps of the way back do not fail; without a fault it succeeds if and only if the site is no WordPress network and what is on can be listed |
| SafeMode.PluginSite.DisableListed | src/cms_safe_mode.rs:905-929 | a failed switching off whose way back meets no fault ends with the same extensions on as before and no list |
| SafeMode.PluginSite.PutBack | src/cms_safe_mode.rs:918-926 | the way back: without a fault everything on the list is on again and the list is gone; in every case what is still off stays on the list |
| SafeMode.PluginSite.ProbeNetwork | src/cms_safe_mode.rs:882-890 | a command that does not end well says that the site is no network, and only a network is called one |
| SafeMode.PluginSite.TurnOff | src/cms_safe_mode.rs:930-941 | success leaves exactly what was on plus the list; every other end keeps the list and takes nothing away; without a fault it succeeds if and only if what is on can be listed, before and with the list |
| SafeMode.PluginSite.Restore | src/cms_safe_mode.rs:791-803 | only listed extensions are added, and the reported number is exactly how many of the list are still off; without a fault that is none, exactly if what is on can be listed before and after |
| SafeMode.MissingCount | src/cms_safe_mode.rs:466-473 | the missing part has exactly as many entries as the list has extensions that are off, and is empty if and only if all are on |
| SafeMode.MaintenanceSite.Handle | src/cms_safe_mode.rs:945-1004 | the saved mode is the mode before safe mode, whatever fails, unless a request to switch on overlooks it; a successful one keeps what has to come back if and only if it sees the saved mode or the same mode is set; switching off successfully restores it; without a fault a request succeeds if and only if it has no modules to list or can list them; the answer says safe mode after switching on and none after switching off; `changed` is true for on exactly when no saved mode was seen or the mode was off, and for off exactly when a saved mode was seen and differs from the mode before; the status reports the stored modules when they are seen |
| SafeMode.MaintenanceSite.Serve | src/cms_safe_mode.rs:945-1004 | unless a saved mode was overlooked, every run ends in the mode the site began in, or with that mode saved, whatever modules are enabled meanwhile |
| SafeMode.ModeForgotten | src/cms_safe_mode.rs:822-833 | on, on again with the saved mode overlooked, off; all three succeed and the site stays in maintenance mode |
| SafeMode.MaintenanceSite.SetMaintenance | src/cms_safe_mode.rs:519-542 | success means the wanted mode is set; a failure leaves the old or the wanted one |
| ReleaseSwitch.Site.Switch | src/deploy/execute.rs:171-390 | the link moves to the requested release, which is then there, or stays; a committed record means it moved; a refusal means it stayed; whatever stops a request stops every later one; a request without a fault goes through if and only if the revision is allowed and its release new, or the release to go back to is there and valid, nothing is left that stops it, its id is free after the sweep, and the sweep misses no checkpoint of a record it drops; without a fault a refused request that was admitted is recorded as abandoned, and nothing blocks afterwards that did not block before |
| ReleaseSwitch.Site.SwitchAdmitted | src/rollback/execute.rs:166-311 | the link moves only when nothing among the checkpoints and no link of the target's name is in the way and the release can be staged, and without a fault it does exactly then; after a lost record the link points at the target and the request can be reconciled; without a fault a refusal leaves the record abandoned |
| ReleaseSwitch.Site.Stage | src/deploy/staging.rs:116-172 | a deploy makes one new release and touches no other; without a fault it succeeds if and only if the revision is allowed and the release new, and a rollback if and only if the release is there and valid |
| ReleaseSwitch.Site.Retain | src/deploy/cleanup.rs:33-77 | the releases that are new enough and the given one stay as they are; without a fault exactly the others go, and the link still points at a release if and only if it points at one of the former |
| ReleaseSwitch.ServedReleaseRetired | src/deploy/execute.rs:377-387 | a deploy and a rollback go through, and the deploy's retention removes the release the link points at |
| ReleaseSwitch.Site.Recover | src/deployment_recovery.rs:147-233 | it never moves the link nor touches another request; the verdict is committed if and only if the request made the link point elsewhere, exactly unless the checkpoint has outlived an older record and says so of that one; a verdict needs a checkpoint of the request's own operation; it ends the blocking; without a fault the answer and the records are exactly those that record, checkpoint and link determine |
| ReleaseSwitch.Site.Prepare | src/deployment_recovery.rs:93-138 | checkpoints of finished requests go; an open one, one without a readable record and a file left before its rename stop the request; otherwise the new checkpoint is the only one and holds where the link points |
| ReleaseSwitch.Site.ClearCheckpoints | src/deployment_recovery.rs:93-124 | without a fault it succeeds if and only if nothing but checkpoints of finished requests is there, and then none is left; the others stay in every case |
| ReleaseSwitch.Site.WriteCheckpoint | src/filesystem.rs:493-502 | the checkpoint is written as a whole or not at all, and a failure can leave the file it was written to |
| ReleaseSwitch.Site.Activate | src/deploy/activate.rs:31-57 | the link is the old one or the target; a link left under the temporary name stops it; a failed or interrupted rename can leave one; the bookkeeping of effective switches follows a death at the rename |
| ReleaseSwitch.Site.Prune | src/transaction/prune.rs:79-122 | open requests keep record and checkpoint wherever the sweep stops; a checkpoint outlives its record only where the existence check misses it, and in a sweep without a fault exactly there |
| ReleaseSwitch.SweptClear | src/transaction/prune.rs:79-122 | a sweep clears no way, and a completed one blocks it exactly by the checkpoints it missed |
| ReleaseSwitch.Site.Admit | src/mutation/preflight.rs:67-115 | an existing record is never replaced, and an interrupted creation leaves nothing that claims a switch |
| ReleaseSwitch.Site.Serve | src/deployment_recovery.rs:91-138 | over every run of requests, recoveries, retentions and changes of releases the link points where some request wanted it; it stays, with the request still open, from an interruption on through every run that does not recover that request; it stays for good once a checkpoint file was left before its rename; and without retention it always points at a release that is there; every step without a fault is the exact one, so nothing new blocks after it |
| ReleaseSwitch.Site.Handle | src/deploy/execute.rs:171-390 | one event: requests, recoveries, retentions and changes, each with its exact effect when nothing fails; what stops a request is only ended by recovering it |
| ReleaseSwitch.StrayCheckpointStops | src/deployment_recovery.rs:107-113 | for every left file and every request: refused, although no step fails |
| ReleaseSwitch.StrayLinkStops | src/deploy/activate.rs:46-54 | for every release with a left link: a rollback to it is refused, although no step fails |
| ReleaseSwitch.MissedCheckpointStops | src/transaction/prune.rs:110-120 | one deploy goes through, the sweep before the second misses the first one's checkpoint, and the second and third are refused |
| ReleaseSwitch.VerdictIsTrue | src/deployment_recovery.rs:185-211 | link and checkpoint together decide whether the request the checkpoint was written for had an effect, and no third case remains |
| ReleaseSwitch.CheckpointTruthful | src/deployment_recovery.rs:125-137 | a checkpoint written while none is left keeps at most one open request with a checkpoint |
| ReleaseSwitch.SwitchTruthful | src/deploy/activate.rs:50-54 | the rename keeps every record and checkpoint true |
| ReleaseSwitch.FinishTruthful | src/deployment_recovery.rs:221 | a verdict that agrees with what happened keeps every record true |
| ReleaseSwitch.ForgetTruthful | src/deployment_recovery.rs:119-123 | dropping the checkpoint of a finished request loses nothing |
| ReleaseSwitch.DropTruthful | src/transaction/prune.rs:110-120 | a finished record may go; the checkpoint it leaves behind, if any, is stale and says nothing about a later request |
| DrupalUpdate.DrupalSite.UpdateDb | src/drupal_action.rs:926-974 | updates begin only after a complete dump of the data; success means nothing is pending; a mode that was off is back in every answer but one; the previous mode is back if and only if it was off, or no updates began, or they ended with it on; every answer is given if and only if the site and what the environment does call for it |
| DrupalUpdate.DrupalSite.RunUpdates | src/drupal_action.rs:944-954 | each answer exactly as the dump, the updates and the second status call for it, and that data changes only once the updates begin |
| DrupalUpdate.DrupalSite.SetMaintenance | src/drupal_action.rs:746-771 | success is the mode that reads back; a failed command may still have set it |
| DrupalUpdate.ModeLost | src/drupal_action.rs:955-964 | an environment in which the mode was on, the updates succeed, and the mode is off afterwards |
| CronCalendar.OnCalendar | src/agent_systemd.rs:121-164 | a calendar expression is answered if and only if every field is numeric and within bounds and not both days are restricted; at every instant it fires if and only if the cron line does |
| CronCalendar.Expand | src/agent_systemd.rs:79-104 | the values are strictly increasing, within bounds, and exactly the union of the comma-separated ranges with their steps |
| CronCalendar.ParseSpelled | src/agent_systemd.rs:81-99 | every element of the cron grammar is accepted if and only if it is within bounds, with exactly its range and step |
| CronCalendar.FieldMeaning | src/agent_systemd.rs:79-104 | a field is accepted if and only if it is numeric and within bounds, and then selects exactly the values cron matches |
| CronCalendar.Pigeonhole | src/agent_systemd.rs:106-115 | a strictly increasing list within bounds has full length if and only if it has every value |
| CronCalendar.ListMeaning | src/agent_systemd.rs:106-115 | the printed list, `*` included, matches exactly the listed values |
| CronCalendar.WeekMeaning | src/agent_systemd.rs:141-147 | folding 7 to Sunday, sorting and removing duplicates keeps exactly the weekdays cron matches, and seven of them are all |
| CronCalendar.NamesMeaning | src/agent_systemd.rs:148-156 | the printed names denote, by the weekday each stands for in systemd.time(7), exactly the listed days |
| CronCalendar.CalendarTextMeaning | src/agent_systemd.rs:157-163 | the printed expression is read by systemd's rules as exactly its five parts |
| CronCalendar.KeywordMeaning | src/agent_systemd.rs:122-129 | every replaced keyword fires exactly when its five fields do |
| CronCalendar.KeywordTexts | src/agent_systemd.rs:122-129 | each of the seven literal keywords fires exactly at the instants crontab(5) gives it |
| CronCalendar.ScheduleMeaning | src/agent_systemd.rs:121-140 | a schedule fires exactly when its expanded fields do |
| CronCalendar.PrintedMeaning | src/agent_systemd.rs:136-163 | with one day field `*`, the printed expression fires exactly when the fields do |
| ZipArchive.RoundTrip | src/backup_install_rclone.rs:246-327 | for every list of stored and deflated entries that fits the field widths, reading what the writer makes gives the first entry of the name, or the too-large or not-found error |
| ZipArchive.ExtractSound | src/backup_install_rclone.rs:246-327 | for every byte string, a success is within the limit and has the size and checksum that the first record of that name declares, among as many records from the directory's start as the end record counts |
| ZipArchive.CursorFits | src/backup_install_rclone.rs:259-325 | for every archive the arithmetic on the cursor, on the local header of the record it is at and on the data behind that stays below 2^64 |
| ZipArchive.ExtractEntry | src/backup_install_rclone.rs:246-327 | the loops compute the reference reader, and every index they use is inside the archive |
| ZipArchive.FindEndRecord | src/backup_install_rclone.rs:247-253 | the backward search finds the last end record within reach |
| ZipArchive.ScanDirectory | src/backup_install_rclone.rs:263-326 | the walk over the central directory is the reference scan |
| ZipArchive.Zip | src/backup_install_rclone.rs:513-564 | the writer's two growing buffers make the reference archive |
| ZipArchive.EntriesReadBack | src/backup_install_rclone.rs:513-545 | every entry that fits the field widths is read back from where the writer puts it |
| BackupTab.EngineLineParses | src/backup_schedule.rs:269-276 | the line of a job, also commented out, parses back to the same target, schedule and retention |
| BackupTab.InstalledCommand | src/backup_schedule.rs:269-276 | for every target, schedule and retention: cron and the shell read the installed line as the schedule, the engine, `backup run-scheduled`, and the options database type, database and retention days, which give the target and the number back, with the output dropped |
| BackupTab.LegacyRetention | src/backup_schedule.rs:359-370 | a legacy line with `-mtime +` and a number, wherever it stands, is a job that keeps that many days |
| BackupTab.WithJob | src/backup_schedule.rs:433-451 | the edited tab and the number of replaced lines |
| BackupTab.WithoutJob | src/backup_schedule.rs:455-467 | the edited tab and the number of removed lines |
| BackupTab.WithJobRefines | src/backup_schedule.rs:433-451 | on the list of jobs, scheduling removes exactly the jobs with the key and adds the one job |
| BackupTab.WithoutJobRefines | src/backup_schedule.rs:455-467 | on the list of jobs, unscheduling removes exactly the jobs with the key |
| BackupTab.EditPreserves | src/backup_schedule.rs:432-467 | for every tab, job and new line: the raw lines of the edited tab are the kept raw lines, byte for byte, and the new one, if and only if no kept line ended by a newline has a carriage return before it |
| BackupTab.SchedulePreserves | src/backup_schedule.rs:432-451 | the same for scheduling a job |
| BackupTab.CarriageReturnLost | src/backup_schedule.rs:418-424 | an edit that hits nothing turns "A", carriage return, newline into "A", newline |
| BackupTab.ScheduleThenUnschedule | src/backup_schedule.rs:433-467 | unscheduling after scheduling gives the text that unscheduling alone gives, if and only if no kept line still ends with a carriage return after the first reading took one |
| BackupTab.CredentialsFollowJobs | src/backup_schedule.rs:471-475 | credentials are needed after scheduling, and after unscheduling if and only if the target has an engine job on another schedule |
| LineStore.ReplacedLines | src/backup_schedule.rs:418-424 | an edited tab has the kept lines in order, each without its carriage return, and then the new line |
| LineStore.ReplacedPreserves | src/backup_schedule.rs:418-424 | for every edit that does not look at a trailing carriage return: kept raw lines reappear byte for byte if and only if none that ends with a newline has a carriage return before it |
| LineStore.RawText | src/backup_schedule.rs:418-424 | the raw lines, each with its newline, and the rest are the text |
| LineStore.Filter | src/agent_lifecycle.rs:444-452 | the filtering closure keeps the other lines in order and counts the hits |
| AgentTab.RunIsMap | src/agent_lifecycle.rs:395-462 | from any tab in which no line carries two tags, after any run of installations and removals, an agent's schedule is what the run last said about it |
| AgentTab.RunOwned | src/agent_lifecycle.rs:442-462 | from such a tab, after any run, an agent owns the one line of its last installation, nothing after its last removal, and its own lines when not mentioned |
| AgentTab.RunKeepsForeign | src/agent_lifecycle.rs:442-458 | through any run, the raw lines without a tag keep order and text up to one carriage return per edit, and a last line without a newline up to one less |
| AgentTab.RunLeavesForeign | src/agent_lifecycle.rs:442-458 | they are the same byte for byte if and only if none that ends with a newline has a carriage return before it and, with more than one edit, the last one has none either |
| AgentTab.CarriageReturnLost | src/agent_lifecycle.rs:442-458 | removing any agent turns "A", carriage return, newline into "A", newline |
| AgentTab.EditedOwned | src/agent_lifecycle.rs:442-458 | one edit: the agent owns the new line only, and any other agent keeps exactly its lines without the edited tag |
| AgentTab.TwoTagsGoTogether | src/agent_lifecycle.rs:442-458 | removing one agent takes the only line of another that carries both tags |
| AgentTab.WithAgent | src/agent_lifecycle.rs:442-462 | the edited tab and the number of replaced lines |
| AgentTab.CronLineTagged | src/agent_lifecycle.rs:384-438 | a cron line belongs to an agent if and only if it was written for it, also when one name begins with the other |
| AgentTab.CronLineSchedule | src/agent_lifecycle.rs:395-438 | the schedule is read back from the cron line, also when it is commented out |
| AgentTab.CronLineRuns | src/agent_lifecycle.rs:410-438 | cron and the shell read an agent's line as its schedule, the agent's environment, and `bash` with the agent's own script |
| AgentTimer.TimerKeepsSchedule | src/agent_systemd.rs:214-242 | the schedule is read back from the timer unit |
| AgentTimer.TimerHead | src/agent_systemd.rs:214-217 | every timer begins with these two literal comments, the schedule in the second |
| AgentTimer.TimerReads | src/agent_systemd.rs:214-234 | systemd reads the timer as exactly these settings: `OnCalendar` in `[Timer]` is the calendar, `Unit` the agent's service |
| AgentTimer.Timer | src/agent_lifecycle/execute.rs:528-540 | a timer is written if and only if the schedule can be translated; the value systemd reads back from it fires at exactly the instants the cron line does, starts the agent's service, and the schedule is read back |
| UnitFiles.UnitReads | src/agent_systemd.rs:214-234 | every unit of comments and sections that is written is read back as exactly its settings |
| Schedules.ParseIdempotent | src/backup_schedule.rs:62-88 | the accepted schedules are exactly the fixed points of parsing |
| Schedules.ParseDependsOnWords | src/backup_schedule.rs:62-88 | two texts are the same schedule if and only if their words agree |
| Redaction.RedactQuotedAfter | src/backup_schedule.rs:281-311 | the nested loops end and compute the reference redaction |
| Redaction.RedactedPassword | src/backup_schedule.rs:281-311 | a quoted password, whatever it holds, is replaced as a whole |
| Redaction.NonInterference | src/backup_schedule.rs:281-311 | after the first marker of a line, and before any text that does not continue the quoting, the output is the same for every two passwords |
| Redaction.MariadbPasswordHidden | src/backup_schedule.rs:314-319 | the output of both passes is independent of a MariaDB password |
| Redaction.HiddenIffMarked | src/backup_schedule.rs:314-319 | in front of a quoted text with at most one marker, the MariaDB one and last: the output is the same for every two texts if and only if the marker is there |
| Redaction.PostgresPasswordReplaced | src/backup_schedule.rs:314-319 | without the other marker a PostgreSQL password is replaced as a whole |
| Redaction.PostgresPasswordHidden | src/backup_schedule.rs:314-319 | the output is that of the empty password if and only if the quoted password does not contain the other marker |
| Redaction.MarkerAsPasswordShows | src/backup_schedule.rs:314-319 | an instance of the other case |
| BackupListing.ListedPassword | src/backup_schedule.rs:359-389 | for lines that hold a secret whatever the password is, with no PostgreSQL marker before it and the MariaDB marker, if at all, once and right before it: what is listed is the same for every two passwords if and only if the marker is there |
| BackupListing.LegacySecret | src/backup_schedule.rs:359-367 | a legacy line is a job with a secret for every schedule, target and password, any text before the dump command that makes it no engine command, any whitespace between the words of the marker, and any text after the password |
| BackupListing.LegacyPasswordListed | src/backup_schedule.rs:359-389 | of these lines, with no marker in the text before the dump command, what is listed is independent of the password if and only if the words of the marker are one space apart |
| BackupListing.OtherBlanksListed | src/backup_schedule.rs:359-389 | with other whitespace, and no marker around it, the line of a job with a secret is listed as it is, for every password that holds no quote and does not end like a marker does before its quote |
| BackupListing.PanelLineHidden | src/backup_schedule.rs:482 | the line as the panel wrote it, with quoted names before and after the password, hides the password |
| BackupListing.DoubleSpaceListed | src/backup_schedule.rs:359-389 | an instance: the panel's line with two spaces and the password hunter2 |
| PhpSettings.QuotedReads | src/drupal_clone.rs:275-277 | for every value, PHP reads the quoted text as that value and stops after it |
| PhpSettings.CopySettings | src/drupal_clone.rs:298-341 | a file is accepted if and only if it holds neither `?>` nor the source's path; it stays a prefix; and whatever it has set, running what is appended leaves exactly the copy's connection, salt and options and nothing else changed |
| PhpSettings.TrustsDomain | src/drupal_clone.rs:291-294 | the trusted-host pattern of a lower-case domain name matches a host if and only if that is the domain, in any case of its letters |
| PhpSettings.SourceRuns | src/drupal_clone.rs:308-340 | running the text of any such lines is applying them one after the other |
| AgentLog.LogFile.Append | src/agent_helper.rs:206-231 | after every append the file is the last lines of everything ever written to it |
| AgentLog.LogFile.Trim | src/agent_helper.rs:233-256 | trimming keeps an end of the content from the start of a line on, with the last lines |
| AgentLog.AfterNewline | src/agent_helper.rs:241-251 | the scan stops after the newline with the given number |
| AgentLog.TailUnique | src/agent_helper.rs:233-256 | there is only one such end |
| AgentLog.TailAppend | src/agent_helper.rs:206-256 | trimming after every append gives what trimming once at the end gives |
| AgentLog.AppendAll | src/agent_helper.rs:206-256 | after any number of one-line appends the file is exactly the last lines |
| ImageReferences.ParseExact | src/docker_resource.rs:189-255 | for every text and every reference: the text is accepted as that reference if and only if the reference is well formed, prints as the text and is not too long; so its registry is a listed one or none is named, and no text has two readings |
| ImageReferences.ParseSound | src/docker_resource.rs:189-255 | what is accepted is well formed and prints as the text |
| ImageReferences.ParseComplete | src/docker_resource.rs:189-255 | every well-formed reference that is not too long is read back from its text |
| ImageReferences.SplitTagged | src/docker_resource.rs:210-217 | a colon after the last slash, and no other, starts the tag |

## Left out

- Subprocesses, containers, Drush, WP-CLI and PHP: steps that can fail with the effects stated at their methods; Drush is taken to report a site's settings truthfully.
- The database server: one server per scope; a copy whose settings name another host is not modelled, since the health check compares the database name only.
- The databases and files during a request: nothing else changes them while the request holds its lock. `SafeMode.PluginSite.OthersChange` covers changes between requests.
- SiteClone.Scope.Execute: idempotency keys, replayed answers and the pruning of old records are not modelled; a request whose record exists is rejected.
- SiteClone.Scope.CheckSource: symlinks, and a parent of the target that is missing, are a failing step.
- SiteClone.Scope.FillTarget: ownership and modes are not modelled; what Drush reports of a text that does not run to its end is part of the site.
- SiteClone.Scope.CheckCopy: what sanitizing makes of the tables and which tables a site boots with are functions that the place gives.
- SiteClone.Scope.TakeSnapshot: an incomplete dump file counts as no snapshot.
- SiteClone.Scope.Recover: the checks of the marker's paths, of the dump's hash and owner and of the container's identity are failing steps; a recovery that overlooks the marker itself does nothing and is not modelled.
- SiteClone.JunkStays: the state it starts from is built as it stands on the disk; which steps of a request fail is the environment's choice and not the model's.
- SafeMode.PluginSite.Handle: Joomla's comparison of the lengths of the saved id and name lists, and lists that are found and cannot be read, are a failing first step.
- SafeMode.MaintenanceSite.Handle: the answer's own copy of the maintenance mode is not modelled.
- ReleaseSwitch.Site.Switch: which revisions are allowed and which releases are valid are parameters; the site's user and manifest, and a link that was edited by hand, are not modelled.
- ReleaseSwitch.Site.Retain: modification times and the number of kept releases are not modelled; which releases are the oldest is a parameter.
- ReleaseSwitch.Site.Recover: which of the refusals is answered is not modelled.
- ReleaseSwitch.Site.Prune: clocks and the retention limit are not modelled; which records are old enough is a parameter. A record whose idempotency entry is gone is not modelled.
- DrupalUpdate.DrupalSite.UpdateDb: the death of the process is not modelled; it can leave maintenance mode on.
- AgentLog.LogFile.Append: the file is truncated and then rewritten; a death in between loses lines, and only completed appends are modelled. Concurrent appends are the ones the file lock serializes.
- AgentTimer.Timer: the service unit and the condition that the host has systemd are not modelled; `UnitFiles` reads no continuation lines, since none are written.
- CronCommands: of the shell, words, assignments, quotes around a whole word, output redirections and comments are modelled.
- CronCalendar: time zones and daylight saving, which both sides read from the host.
- ZipArchive: deflate and CRC-32 are parameters with `inflate(deflate(x)) == x`.
- PhpSettings.CopySettings: the original text is any PHP that runs to its end; what it sets is a parameter.
- ImageReferences.ParseExact: which of the two errors a rejected text gets is not stated.
- Request parsing, path and symlink checks, error messages, the remaining operations: each is settled by reading one function and would add easy members.
