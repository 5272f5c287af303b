/** Running Drupal's database updates in maintenance mode
    (src/drupal_action.rs). What the site's containers answer is a parameter:
    every answer they can give is an `Environment`. */
module DrupalUpdate {
  import opened Text

  /** One attempt to set the mode. The mode can be set although the command
      reports a failure. */
  datatype Setting = Setting(takesEffect: bool, exitsWell: bool, rebuilds: bool, readsBack: bool)

  /** What `drush updatedb` does, well or not: the data and the number of
      pending updates it leaves, and the mode, which Drush may also touch. */
  datatype Update = Update(exitsWell: bool, data: string, pending: nat, maintenance: bool)

  datatype Environment = Environment(
    readsStatus: bool,
    readsMode: bool,
    dumps: bool,
    before: Setting,
    update: Update,
    readsStatusAgain: bool,
    after: Setting)

  datatype Answer = NothingPending | Updated(pending: nat) | UpdatesRemain(remaining: nat) | NotRestored | Failed

  predicate Works(s: Setting) {
    s.takesEffect && s.exitsWell && s.rebuilds && s.readsBack
  }

  predicate Succeeds(e: Environment) {
    e.update.exitsWell && e.readsStatusAgain
  }

  /** Switching a mode off again that the request has switched on: also a command
      without effect reads back as off when the mode is off already. */
  predicate Restores(e: Environment, began: bool) {
    && e.after.exitsWell && e.after.rebuilds && e.after.readsBack
    && (e.after.takesEffect || !(if began then e.update.maintenance else e.before.takesEffect))
  }

  class DrupalSite {
    var maintenance: bool
    var pending: nat
    var data: string
    /** The completed dump of this request. */
    var backup: Option<string>

    constructor (maintenance: bool, pending: nat, data: string)
      ensures this.maintenance == maintenance && this.pending == pending && this.data == data && backup.None?
    {
      this.maintenance, this.pending, this.data, backup := maintenance, pending, data, None;
    }

    /** The request gets as far as the dump and makes it. */
    predicate Tries(e: Environment)
      reads this
    {
      e.readsStatus && pending > 0 && e.readsMode && e.dumps
    }

    /** `set_maintenance`: success is the mode that reads back. */
    method SetMaintenance(enabled: bool, s: Setting) returns (ok: bool)
      modifies `maintenance
      ensures maintenance == if s.takesEffect then enabled else old(maintenance)
      ensures ok <==> maintenance == enabled && s.exitsWell && s.rebuilds && s.readsBack
    {
      if s.takesEffect {
        maintenance := enabled;
      }
      if !s.exitsWell || !s.rebuilds || !s.readsBack {
        return false;
      }
      return maintenance == enabled;
    }

    /** The part that runs in maintenance mode, and whether the updates began. */
    method RunUpdates(e: Environment, previous: bool) returns (a: Answer, ghost began: bool)
      requires previous == maintenance
      modifies `maintenance, `pending, `data
      ensures !began ==> data == old(data) && pending == old(pending) && (previous ==> maintenance)
      ensures began ==> data == e.update.data && pending == e.update.pending && maintenance == e.update.maintenance
      ensures began <==> previous || Works(e.before)
      ensures a.Updated? <==> began && e.update.exitsWell && e.readsStatusAgain && e.update.pending == 0
      ensures a.Updated? ==> a.pending == old(pending)
      ensures a.UpdatesRemain? <==> began && e.update.exitsWell && e.readsStatusAgain && e.update.pending > 0
      ensures a.UpdatesRemain? ==> a.remaining == pending
      ensures a.Updated? || a.UpdatesRemain? || a.Failed?
      ensures !began && !previous ==> maintenance == e.before.takesEffect
    {
      began := false;
      var found := pending;
      if !previous {
        var ok := SetMaintenance(true, e.before);
        if !ok {
          return Failed, false;
        }
      }
      began := true;
      data, pending, maintenance := e.update.data, e.update.pending, e.update.maintenance;
      if !e.update.exitsWell || !e.readsStatusAgain {
        return Failed, true;
      }
      if pending > 0 {
        return UpdatesRemain(pending), true;
      }
      return Updated(found), true;
    }

    /** `update_db`. */
    method UpdateDb(e: Environment) returns (a: Answer, ghost began: bool)
      requires backup.None?
      modifies this
      // the updates begin only after a complete dump of the data they change
      ensures backup == if old(Tries(e)) then Some(old(data)) else None
      ensures data != old(data) || pending != old(pending) ==> began
      ensures began <==> old(Tries(e)) && (old(maintenance) || Works(e.before))
      ensures began ==> data == e.update.data && pending == e.update.pending
      // each answer, and no other
      ensures a.NothingPending? <==> e.readsStatus && old(pending) == 0
      ensures a.NotRestored? <==> old(Tries(e)) && !old(maintenance) && !Restores(e, began)
      ensures a.Updated? <==> began && Succeeds(e) && e.update.pending == 0 && !a.NotRestored?
      ensures a.UpdatesRemain? <==> began && Succeeds(e) && e.update.pending > 0 && !a.NotRestored?
      ensures a.Updated? ==> a.pending == old(pending)
      ensures a.UpdatesRemain? ==> a.remaining == pending
      // a mode that was off is back in every answer but one
      ensures !old(maintenance) && !a.NotRestored? ==> !maintenance
      // the previous mode is back, unless it was on and the updates ended with it off
      ensures !a.NotRestored? ==> (maintenance == old(maintenance) <==> !(old(maintenance) && began && !e.update.maintenance))
    {
      began := false;
      if !e.readsStatus {
        return Failed, false;
      }
      if pending == 0 {
        return NothingPending, false;
      }
      if !e.readsMode {
        return Failed, false;
      }
      var previous := maintenance;
      if !e.dumps {
        return Failed, false;
      }
      backup := Some(data);
      a, began := RunUpdates(e, previous);
      if !previous {
        var restored := SetMaintenance(false, e.after);
        if !restored {
          a := NotRestored;
        }
      }
    }
  }

  /** The mode is not put back when it was on before: updates that end with the
      mode off leave the site open, and the answer is a success. */
  method ModeLost() returns (before: bool, after: bool, a: Answer)
    ensures before && !after && a.Updated?
  {
    before := true;
    var site := new DrupalSite(before, 1, "before");
    var works := Setting(true, true, true, true);
    var e := Environment(true, true, true, works, Update(true, "after", 0, false), true, works);
    ghost var began;
    a, began := site.UpdateDb(e);
    after := site.maintenance;
  }
}
