/** Safe mode of a content management system (src/cms_safe_mode.rs): the
    extensions are switched off after their list was stored, and exactly those
    come back. Every step can fail or be the last one of the process. */
module SafeMode {
  import opened Steps
  import opened Text

  const MAX_EXTENSIONS := 2000

  datatype Kind = WordPress | Joomla
  datatype Mode = Status | On | Off

  /** A request, and whether the check for a stored list fails and is taken to
      say that there is none. */
  datatype Request = Request(mode: Mode, blind: bool)

  datatype Answer<T> =
    | Ran(safeMode: bool, changed: bool, extensions: seq<T>)
    | Incomplete(left: nat)
    | Refused
    | Died

  predicate IsNameChar(c: char) {
    'a' <= c <= 'z' || 'A' <= c <= 'Z' || '0' <= c <= '9' || c == '-' || c == '_' || c == '.' || c == '/'
  }

  /** `valid_name`. */
  predicate ValidName(name: string) {
    && name != "" && |name| <= 200
    && name[0] != '-' && name[0] != '.' && name[0] != '/'
    && Find(name, "..").None?
    && forall c | c in name :: IsNameChar(c)
  }

  /** The extensions that can be listed: not too many, and each with a valid name. */
  predicate AreListable<T>(name: T -> string, all: set<T>) {
    |all| <= MAX_EXTENSIONS && forall x | x in all :: ValidName(name(x))
  }

  function Elements<T>(s: seq<T>): set<T> {
    set x | x in s
  }

  predicate Distinct<T(==)>(s: seq<T>) {
    forall i, j | 0 <= i < j < |s| :: s[i] != s[j]
  }

  lemma ElementsAppend<T>(a: seq<T>, b: seq<T>)
    ensures Elements(a + b) == Elements(a) + Elements(b)
  {
  }

  lemma DistinctSnoc<T>(s: seq<T>, x: T)
    requires Distinct(s) && x !in Elements(s)
    ensures Distinct(s + [x])
  {
  }

  lemma {:induction false} DistinctCount<T>(s: seq<T>)
    requires Distinct(s)
    ensures |Elements(s)| == |s|
  {
    if s != [] {
      var front, last := s[..|s| - 1], s[|s| - 1];
      DistinctCount(front);
      assert last !in front;
      assert Elements(s) == Elements(front) + {last};
    }
  }

  /** `missing` and `missing_ids`: the saved extensions that are not on. */
  function Missing<T(==)>(saved: seq<T>, current: set<T>): seq<T> {
    if saved == [] then []
    else Missing(saved[..|saved| - 1], current) +
         if saved[|saved| - 1] in current then [] else [saved[|saved| - 1]]
  }

  lemma {:induction false} MissingElements<T>(saved: seq<T>, current: set<T>)
    ensures Elements(Missing(saved, current)) == Elements(saved) - current
  {
    if saved != [] {
      var front, last := saved[..|saved| - 1], saved[|saved| - 1];
      MissingElements(front, current);
      assert saved == front + [last];
      ElementsAppend(front, [last]);
      ElementsAppend(Missing(front, current), [last]);
      assert Missing(front, current) + [] == Missing(front, current);
    }
  }

  lemma {:induction false} MissingDistinct<T>(saved: seq<T>, current: set<T>)
    requires Distinct(saved)
    ensures Distinct(Missing(saved, current))
  {
    if saved != [] {
      var front, last := saved[..|saved| - 1], saved[|saved| - 1];
      MissingDistinct(front, current);
      MissingElements(front, current);
      if last !in current {
        DistinctSnoc(Missing(front, current), last);
      } else {
        assert Missing(front, current) + [] == Missing(front, current);
      }
    }
  }

  lemma MissingCompletes<T>(saved: seq<T>, current: set<T>)
    ensures current + Elements(Missing(saved, current)) == current + Elements(saved)
  {
    MissingElements(saved, current);
  }

  lemma MissingCount<T>(saved: seq<T>, current: set<T>)
    requires Distinct(saved)
    ensures |Missing(saved, current)| == |Elements(saved) - current|
    ensures Missing(saved, current) == [] <==> Elements(saved) <= current
  {
    MissingElements(saved, current);
    MissingDistinct(saved, current);
    DistinctCount(Missing(saved, current));
  }

  method Listed<T(==)>(all: set<T>) returns (names: seq<T>)
    ensures Elements(names) == all && Distinct(names)
  {
    names := [];
    var rest := all;
    while rest != {}
      invariant Distinct(names) && Elements(names) !! rest && Elements(names) + rest == all
      decreases |rest|
    {
      var x :| x in rest;
      DistinctSnoc(names, x);
      ElementsAppend(names, [x]);
      names, rest := names + [x], rest - {x};
    }
  }

  /** A list is stored and the request to switch on does not see it. */
  predicate Overlooks<T>(r: Request, saved: Option<T>) {
    r.blind && r.mode.On? && saved.Some?
  }

  /** A WordPress or Joomla site and its saved list. */
  class PluginSite<T(==)> {
    const name: T -> string
    const kind: Kind
    const multisite: bool
    var active: set<T>
    var saved: Option<seq<T>>
    const env: Environment
    /** What was on when safe mode was last off. */
    ghost var original: set<T>
    /** What others have switched on since. */
    ghost var added: set<T>

    constructor (env: Environment, name: T -> string, kind: Kind, multisite: bool, active: set<T>)
      ensures Valid() && saved.None? && this.active == active && added == {}
      ensures this.env == env && this.name == name && this.kind == kind && this.multisite == multisite
    {
      this.name := name;
      this.kind, this.multisite, this.active := kind, multisite, active;
      saved, original, added := None, active, {};
      this.env := env;
    }

    /** No extension gets lost: without a list they are on, with one they are on
        the list. */
    ghost predicate Valid()
      reads this
    {
      && (saved.None? ==> active == original && added == {})
      && (saved.Some? ==> Distinct(saved.value) && Elements(saved.value) == original && active <= original + added)
    }

    predicate IsNetwork() {
      kind.WordPress? && multisite
    }

    // ---- what the environment does ----------------------------------------

    /** `wp_active`, `joomla_enabled`. */
    method ReadActive() returns (s: Steps.Status, names: seq<T>)
      requires env.alive
      modifies env
      ensures env.alive <==> !s.Crashed?
      ensures s.Done? ==> Elements(names) == active && Distinct(names) && AreListable(name, active)
      ensures s.Done? ==> env.faults == old(env.faults)
      ensures env.faults >= old(env.faults)
      ensures !s.Done? ==> env.faults > old(env.faults) || !AreListable(name, active)
      ensures s.Crashed? ==> env.faults > old(env.faults)
      ensures env.reliable ==> env.faults == old(env.faults)
    {
      names := [];
      :- env.Attempt();
      if !AreListable(name, active) {
        return Failed, [];
      }
      names := Listed(active);
      return Done, names;
    }

    /** Switching extensions on: however it ends, any of them may be on now. */
    method Enable(names: seq<T>) returns (s: Steps.Status)
      requires env.alive
      modifies `active, env
      ensures env.alive <==> !s.Crashed?
      ensures old(active) <= active <= old(active) + Elements(names)
      ensures env.faults >= old(env.faults)
      ensures env.faults == old(env.faults) ==> s.Done? && active == old(active) + Elements(names)
      ensures env.reliable ==> env.faults == old(env.faults)
    {
      s := env.Attempt();
      var some := Elements(names);
      if !env.reliable {
        some := *;
        some := some * Elements(names);
      }
      active := active + some;
      if some != Elements(names) {
        env.Blame();
      }
    }

    method Disable(names: seq<T>) returns (s: Steps.Status)
      requires env.alive
      modifies `active, env
      ensures env.alive <==> !s.Crashed?
      ensures old(active) - Elements(names) <= active <= old(active)
      ensures env.faults >= old(env.faults)
      ensures env.faults == old(env.faults) ==> s.Done? && active == old(active) - Elements(names)
      ensures env.reliable ==> env.faults == old(env.faults)
    {
      s := env.Attempt();
      var some := Elements(names);
      if !env.reliable {
        some := *;
        some := some * Elements(names);
      }
      active := active - some;
      if some != Elements(names) {
        env.Blame();
      }
    }

    /** Storing and dropping the list are a rename and an unlink. */
    method Write(list: Option<seq<T>>) returns (s: Steps.Status)
      requires env.alive
      modifies `saved, env
      ensures env.alive <==> !s.Crashed?
      ensures s.Done? ==> saved == list && env.faults == old(env.faults)
      ensures s.Failed? ==> saved == old(saved)
      ensures saved == old(saved) || saved == list
      ensures !s.Done? ==> env.faults > old(env.faults)
      ensures env.reliable ==> s.Done?
    {
      s := env.Attempt();
      if s.Done? {
        saved := list;
      } else if s.Crashed? {
        if * {
          saved := list;
        }
      }
    }

    // ---- the requests -----------------------------------------------------

    /** Everything is switched off and reads back as off. */
    method SwitchOff(names: seq<T>) returns (s: Steps.Status)
      requires env.alive
      modifies `active, env
      ensures env.alive <==> !s.Crashed?
      ensures old(active) - Elements(names) <= active <= old(active)
      ensures s.Done? ==> active == {}
      ensures env.faults >= old(env.faults)
      ensures env.faults == old(env.faults) && Elements(names) == old(active) ==> s.Done?
      ensures s.Crashed? ==> env.faults > old(env.faults)
      ensures env.reliable ==> env.faults == old(env.faults)
    {
      if kind.Joomla? || names != [] {
        :- Disable(names);
      }
      var now;
      s, now := ReadActive();
      if s.Done? && now != [] {
        assert now[0] in Elements(now);
        s := Failed;
      }
    }

    /** Everything is switched on and reads back as on. */
    method SwitchOn(names: seq<T>) returns (s: Steps.Status)
      requires env.alive
      requires Distinct(names)
      modifies `active, env
      ensures env.alive <==> !s.Crashed?
      ensures old(active) <= active <= old(active) + Elements(names)
      ensures s.Done? ==> Elements(names) <= active
      ensures env.faults >= old(env.faults)
      ensures env.faults == old(env.faults) ==>
                active == old(active) + Elements(names) && (s.Done? <==> AreListable(name, active))
      ensures s.Crashed? ==> env.faults > old(env.faults)
      ensures env.reliable ==> env.faults == old(env.faults)
    {
      if kind.Joomla? || names != [] {
        :- Enable(names);
      }
      var now;
      s, now := ReadActive();
      if s.Done? {
        MissingCount(names, Elements(now));
        if Missing(names, Elements(now)) != [] {
          s := Failed;
        }
      }
    }

    /** `wp core is-installed --network`: only a well ended command says yes. */
    method ProbeNetwork() returns (s: Steps.Status, network: bool)
      requires env.alive
      modifies env
      ensures env.alive <==> !s.Crashed?
      ensures s.Done? && network ==> multisite
      ensures env.faults == old(env.faults) ==> s.Done? && network == multisite
      ensures env.faults >= old(env.faults)
      ensures s.Crashed? ==> env.faults > old(env.faults)
      ensures env.reliable ==> env.faults == old(env.faults)
    {
      network := multisite;
      s := env.Attempt();
      if s.Done? && multisite && !env.reliable {
        if * {
          network := false;
          env.Blame();
        }
      }
    }

    /** Switching on when no list is seen. A list that is there is replaced by
        the one of what is on now. */
    method TurnOn() returns (a: Answer<T>, ghost sofar: nat)
      requires env.alive
      requires Valid()
      modifies this, env
      ensures env.alive <==> !a.Died?
      ensures Valid()
      ensures (saved == old(saved) && active == old(active) && original == old(original) && added == old(added)) ||
              (original == old(active) && added == {} && active <= old(active))
      ensures a.Ran? ==>
              && saved == Some(a.extensions) && Elements(a.extensions) == original == old(active)
              && active == {} && added == {} && a.safeMode && a.changed
      ensures !a.Incomplete?
      ensures old(env.faults) <= sofar <= env.faults
      ensures a.Refused? && env.faults == sofar ==> active == old(active) && (saved == old(saved) || saved.None?)
      ensures env.faults >= old(env.faults)
      ensures env.faults == old(env.faults) ==> (a.Ran? <==> !IsNetwork() && AreListable(name, old(active)))
      ensures a.Died? ==> env.faults > old(env.faults)
      ensures env.reliable ==> env.faults == old(env.faults)
    {
      if kind.WordPress? {
        var s, network := ProbeNetwork();
        if s.IsFailure() {
          return if s.Crashed? then Died else Refused, env.faults;
        }
        if network {
          return Refused, env.faults;
        }
      }
      var s, names := ReadActive();
      if s.IsFailure() {
        return if s.Crashed? then Died else Refused, env.faults;
      }
      s := Write(Some(names));
      if saved == Some(names) {
        original, added := active, {};
      }
      if s.IsFailure() {
        return if s.Crashed? then Died else Refused, env.faults;
      }
      a, sofar := DisableListed(names);
    }

    /** Once the list is stored: everything is switched off, or back on. Between
        the two, the environment has failed `sofar` times. */
    method DisableListed(names: seq<T>) returns (a: Answer<T>, ghost sofar: nat)
      requires env.alive
      requires Valid() && saved == Some(names) && active == original && added == {} && AreListable(name, active)
      modifies `active, `saved, env
      ensures env.alive <==> !a.Died?
      ensures Valid() && active <= original
      ensures a.Ran? ==> saved == old(saved) && active == {} && a == Ran(true, true, names)
      ensures a.Ran? || a.Refused? || a.Died?
      // the way back goes all the way, unless it fails itself
      ensures old(env.faults) <= sofar <= env.faults
      ensures a.Refused? && env.faults == sofar ==> saved.None? && active == original
      ensures env.faults == old(env.faults) ==> a.Ran?
      ensures a.Died? ==> env.faults > old(env.faults)
      ensures env.reliable ==> env.faults == old(env.faults)
    {
      var s := SwitchOff(names);
      sofar := env.faults;
      if s.Done? {
        return Ran(true, true, names), sofar;
      }
      if s.Crashed? {
        return Died, sofar;
      }
      s := PutBack(names);
      return if s.Crashed? then Died else Refused, sofar;
    }

    /** The way back: everything on the list is switched on, and the list goes. */
    method PutBack(names: seq<T>) returns (s: Steps.Status)
      requires env.alive
      requires Valid() && saved == Some(names) && added == {} && AreListable(name, original)
      modifies `active, `saved, env
      ensures env.alive <==> !s.Crashed?
      ensures Valid() && old(active) <= active <= original
      ensures saved == old(saved) || saved.None?
      ensures env.faults >= old(env.faults)
      ensures env.faults == old(env.faults) ==> s.Done? && saved.None? && active == original
      ensures env.reliable ==> env.faults == old(env.faults)
    {
      s := SwitchOn(names);
      assert env.faults == old(env.faults) ==> active == original;
      if s.Done? {
        assert active == original;
        s := Write(None);
      }
    }

    /** What is missing of the list is switched on. */
    method EnableMissing(list: seq<T>) returns (s: Steps.Status)
      requires env.alive
      modifies `active, env
      ensures env.alive <==> !s.Crashed?
      ensures old(active) <= active <= old(active) + Elements(list)
      ensures env.faults >= old(env.faults)
      ensures env.faults == old(env.faults) ==> (s.Done? <==> AreListable(name, old(active)))
      ensures env.faults == old(env.faults) && s.Done? ==> active == old(active) + Elements(list)
      ensures s.Crashed? ==> env.faults > old(env.faults)
      ensures env.reliable ==> env.faults == old(env.faults)
    {
      var now;
      s, now := ReadActive();
      if s.IsFailure() {
        return;
      }
      var todo := Missing(list, Elements(now));
      MissingCompletes(list, Elements(now));
      if kind.Joomla? || todo != [] {
        s := Enable(todo);
      }
    }

    /** What is missing of the list is switched on; how much still is? */
    method Restore(list: seq<T>) returns (s: Steps.Status, left: nat)
      requires env.alive
      requires Distinct(list)
      modifies `active, env
      ensures env.alive <==> !s.Crashed?
      ensures old(active) <= active <= old(active) + Elements(list)
      ensures s.Done? ==> left == |Elements(list) - active|
      ensures env.faults >= old(env.faults)
      ensures env.faults == old(env.faults) ==>
                (s.Done? <==> AreListable(name, old(active)) && AreListable(name, old(active) + Elements(list))) &&
                (s.Done? ==> left == 0)
      ensures s.Crashed? ==> env.faults > old(env.faults)
      ensures env.reliable ==> env.faults == old(env.faults)
    {
      left := 0;
      var after;
      s := EnableMissing(list);
      if s.IsFailure() {
        return;
      }
      s, after := ReadActive();
      if s.Done? {
        MissingCount(list, Elements(after));
        left := |Missing(list, Elements(after))|;
      }
    }

    method TurnOff() returns (a: Answer<T>)
      requires env.alive
      requires Valid() && saved.Some?
      modifies this, env
      ensures env.alive <==> !a.Died?
      ensures Valid()
      ensures old(active) <= active <= old(active) + old(original)
      ensures saved == old(saved) || (saved.None? && active == original == old(active) + old(original))
      ensures saved == old(saved) ==> original == old(original) && added == old(added)
      ensures a.Ran? ==> saved.None? && !a.safeMode && a.changed && Some(a.extensions) == old(saved)
      ensures a.Incomplete? ==> saved == old(saved) && a.left == |original - active| && a.left > 0
      ensures env.faults >= old(env.faults)
      ensures env.faults == old(env.faults) ==>
                (a.Ran? <==> AreListable(name, old(active)) && AreListable(name, old(active) + old(original)))
      ensures a.Died? ==> env.faults > old(env.faults)
      ensures env.reliable ==> env.faults == old(env.faults)
    {
      var list := saved.value;
      var s, left := Restore(list);
      if s.IsFailure() {
        return if s.Crashed? then Died else Refused;
      }
      if left != 0 {
        return Incomplete(left);
      }
      assert forall x | x in Elements(list) && x !in active :: x in Elements(list) - active;
      assert active == old(active) + Elements(list);
      s := Write(None);
      if saved.None? {
        original, added := active, {};
      }
      return if s.Crashed? then Died else if s.Failed? then Refused else Ran(false, true, list);
    }

    /** The requests that nothing but a failing environment stands in the way of. */
    ghost predicate CanRun(r: Request)
      reads this
    {
      var seen := saved.Some? && !r.blind;
      match r.mode
      case Status => true
      case Off => seen ==> AreListable(name, active) && AreListable(name, active + original)
      case On => if seen then active == {} else !IsNetwork() && AreListable(name, active)
    }

    /** `run_wordpress` and `run_joomla`. */
    method Handle(r: Request) returns (a: Answer<T>)
      requires env.alive
      requires Valid()
      modifies this, env
      ensures env.alive <==> !a.Died?
      ensures Valid()
      // a list is let go of by switching off, with everything on it on, or overlooked
      ensures old(saved).Some? && saved != old(saved) && !Overlooks(r, old(saved)) ==>
                r.mode.Off? && saved.None? && old(original) <= active
      // what has to come back stays the same, unless the list is overlooked
      ensures !Overlooks(r, old(saved)) ==>
                original == old(original) || (r.mode.Off? && original == active == old(active) + old(original))
      ensures !Overlooks(r, old(saved)) && old(added) == {} ==> original == old(original) && added == {}
      ensures Overlooks(r, old(saved)) ==>
                original == old(original) || (original == old(active) && added == {})
      ensures Overlooks(r, old(saved)) && a.Ran? ==> original == old(active)
      ensures r.mode.On? && old(saved).Some? && a.Ran? ==>
                (original == old(original) <==> !r.blind || old(active) == old(original))
      // the answers
      ensures r.mode.Status? ==> active == old(active) && saved == old(saved)
      ensures r.mode.Status? && a.Ran? ==>
                a == if saved.Some? && !r.blind then Ran(true, false, saved.value) else Ran(false, false, [])
      ensures r.mode.On? && a.Ran? ==>
                saved == Some(a.extensions) && active == {} && a.safeMode && (a.changed <==> old(saved).None? || r.blind)
      ensures r.mode.Off? ==> old(active) <= active <= old(active) + old(original)
      ensures r.mode.Off? && a.Ran? ==>
                a == if old(saved).Some? && !r.blind then Ran(false, true, old(saved).value) else Ran(false, false, [])
      ensures r.mode.Off? && a.Ran? ==> (saved.None? <==> !(r.blind && old(saved).Some?))
      ensures a.Incomplete? ==> saved == old(saved) && a.left == |original - active| && a.left > 0
      // and without a fault the mode is reached exactly if the extensions allow it
      ensures env.faults >= old(env.faults)
      ensures env.faults == old(env.faults) ==> (a.Ran? <==> old(CanRun(r)))
      ensures a.Died? ==> env.faults > old(env.faults)
      ensures env.reliable ==> env.faults == old(env.faults)
    {
      var seen := saved.Some? && !r.blind;
      if seen {
        var s := env.Attempt();
        if s.IsFailure() {
          return if s.Crashed? then Died else Refused;
        }
      }
      if r.mode.Status? {
        return if seen then Ran(true, false, saved.value) else Ran(false, false, []);
      }
      if r.mode.Off? {
        if !seen {
          return Ran(false, false, []);
        }
        a := TurnOff();
        return;
      }
      if !seen {
        ghost var sofar;
        a, sofar := TurnOn();
        return;
      }
      a := StayOn();
    }

    /** Already on: anything that is on again is reported. */
    method StayOn() returns (a: Answer<T>)
      requires env.alive
      requires saved.Some?
      modifies env
      ensures env.alive <==> !a.Died?
      ensures a.Ran? ==> a == Ran(true, false, saved.value) && active == {}
      ensures a.Ran? || a.Refused? || a.Died?
      ensures env.faults >= old(env.faults) && (env.faults == old(env.faults) ==> (a.Ran? <==> active == {}))
      ensures a.Died? ==> env.faults > old(env.faults)
      ensures env.reliable ==> env.faults == old(env.faults)
    {
      var s, now := ReadActive();
      if s.IsFailure() {
        return if s.Crashed? then Died else Refused;
      }
      if now != [] {
        assert now[0] in Elements(now);
        return Refused;
      }
      return Ran(true, false, saved.value);
    }

    /** Anything others do to the site between two requests. */
    method OthersChange(now: set<T>)
      requires Valid()
      modifies this
      ensures Valid() && saved == old(saved) && active == now
      ensures original == if saved.None? then now else old(original)
    {
      if saved.None? {
        original := now;
      } else {
        added := added + now;
      }
      active := now;
    }

    /** Any run of requests, with failures and deaths, on a site that nobody else
        touches. Unless a stored list was overlooked, exactly the extensions that
        were on before the run are on whenever no list is left over. */
    method Serve(requests: seq<Request>) returns (ghost overlooked: nat)
      requires Valid() && saved.None?
      modifies this, env
      ensures Valid()
      ensures overlooked == 0 && saved.None? ==> active == old(active)
      ensures overlooked == 0 && saved.Some? ==> Elements(saved.value) == old(active) && active <= old(active)
      ensures (forall r | r in requests :: !(r.blind && r.mode.On?)) ==> overlooked == 0
    {
      overlooked := 0;
      for i := 0 to |requests|
        invariant Valid() && (overlooked == 0 ==> original == old(active) && added == {})
        invariant (forall r | r in requests :: !(r.blind && r.mode.On?)) ==> overlooked == 0
      {
        assert requests[i] in requests;
        if Overlooks(requests[i], saved) {
          overlooked := overlooked + 1;
        }
        env.Restart();
        var _ := Handle(requests[i]);
      }
    }
  }

  /** A stored list for which the check fails is replaced by the list of what is
      on in safe mode, and the extensions on it do not come back. */
  method ListLost(before: set<string>) returns (after: set<string>, a: Answer<string>, b: Answer<string>, c: Answer<string>)
    requires AreListable(x => x, before)
    ensures a.Ran? && b.Ran? && c.Ran? && !c.safeMode && after == {}
  {
    var env := new Environment(true);
    var site := new PluginSite<string>(env, x => x, Joomla, false, before);
    a := site.Handle(Request(On, false));
    b := site.Handle(Request(On, true));
    assert site.original == {} && site.active == {};
    c := site.Handle(Request(Off, false));
    assert site.active == {};
    after := site.active;
  }

  /** One active extension whose name is not accepted stops safe mode. */
  method BadNameStops(others: set<string>, name: string) returns (a: Answer<string>)
    requires || name == "" || |name| > 200 || name[0] in "-./"
             || (exists i: nat :: OccursAt(name, "..", i)) || exists c | c in name :: c in " ;|&$'*\\"
    ensures a.Refused?
  {
    var env := new Environment(true);
    var active := others + {name};
    assert name in active && !ValidName(name);
    var site := new PluginSite<string>(env, x => x, WordPress, false, active);
    a := site.Handle(Request(On, false));
  }

  /** So do more than two thousand. */
  method TooManyStop(active: set<string>) returns (a: Answer<string>)
    requires |active| > 2000
    ensures a.Refused?
  {
    var env := new Environment(true);
    var site := new PluginSite<string>(env, x => x, WordPress, false, active);
    a := site.Handle(Request(On, false));
  }

  // ---- Drupal -------------------------------------------------------------

  /** What is saved of a Drupal site: whether maintenance mode was on before, and
      the modules, which are only reported. */
  datatype Previous = Previous(maintenance: bool, modules: seq<string>)

  /** A Drupal site: safe mode is maintenance mode. */
  class MaintenanceSite {
    var maintenance: bool
    /** The enabled modules, which are listed before anything else. */
    var modules: set<string>
    var saved: Option<Previous>
    const env: Environment
    /** The mode when safe mode was last off. */
    ghost var original: bool

    constructor (env: Environment, maintenance: bool, modules: set<string>)
      ensures Valid() && saved.None? && this.maintenance == maintenance && this.modules == modules && this.env == env
    {
      this.env, this.maintenance, this.modules, saved, original := env, maintenance, modules, None, maintenance;
    }

    ghost predicate Valid()
      reads this
    {
      original == if saved.Some? then saved.value.maintenance else maintenance
    }

    method Write(previous: Option<Previous>) returns (s: Steps.Status)
      requires env.alive
      modifies `saved, env
      ensures env.alive <==> !s.Crashed?
      ensures s.Done? ==> saved == previous && env.faults == old(env.faults)
      ensures s.Failed? ==> saved == old(saved)
      ensures saved == old(saved) || saved == previous
      ensures !s.Done? ==> env.faults > old(env.faults)
      ensures env.reliable ==> s.Done?
    {
      s := env.Attempt();
      if s.Done? {
        saved := previous;
      } else if s.Crashed? {
        if * {
          saved := previous;
        }
      }
    }

    /** `drupal_set_maintenance`: set, rebuild the cache, read back. */
    method SetMaintenance(enabled: bool) returns (s: Steps.Status)
      requires env.alive
      modifies `maintenance, env
      ensures env.alive <==> !s.Crashed?
      ensures maintenance == old(maintenance) || maintenance == enabled
      ensures s.Done? ==> maintenance == enabled
      ensures env.faults >= old(env.faults)
      ensures env.faults == old(env.faults) ==> s.Done?
      ensures env.reliable ==> env.faults == old(env.faults)
    {
      s := env.Attempt();
      if s.Done? {
        maintenance := enabled;
      } else {
        if * {
          maintenance := enabled;
        }
        return;
      }
      :- env.Attempt();
      :- env.Attempt();
      return if maintenance == enabled then Done else Failed;
    }

    /** Switching on when no saved mode is seen. One that is there is replaced
        by the mode of now. Before the way back, the environment has failed
        `sofar` times. */
    method TurnOn() returns (a: Answer<string>, ghost sofar: nat)
      requires env.alive
      requires Valid()
      modifies this, env
      ensures env.alive <==> !a.Died?
      ensures Valid()
      ensures original == old(original) || original == old(maintenance)
      ensures a.Ran? ==>
              && saved == Some(Previous(old(maintenance), a.extensions)) && Elements(a.extensions) == modules
              && original == old(maintenance) && maintenance && a.safeMode && a.changed
      ensures a.Ran? || a.Refused? || a.Died?
      // the way back goes all the way, unless it fails itself
      ensures old(env.faults) <= sofar <= env.faults
      ensures a.Refused? && env.faults == sofar ==>
                maintenance == old(maintenance) && (saved == old(saved) || saved.None?)
      ensures modules == old(modules)
      ensures env.faults == old(env.faults) ==> (a.Ran? <==> AreListable(x => x, modules))
      ensures env.reliable ==> env.faults == old(env.faults)
    {
      var s := env.Attempt();
      if s.IsFailure() {
        return if s.Crashed? then Died else Refused, env.faults;
      }
      var previous := maintenance;
      s := env.Attempt();
      if s.IsFailure() {
        return if s.Crashed? then Died else Refused, env.faults;
      }
      if !AreListable(x => x, modules) {
        return Refused, env.faults;
      }
      var names := Listed(modules);
      s := Write(Some(Previous(previous, names)));
      if saved == Some(Previous(previous, names)) {
        original := previous;
      }
      if s.IsFailure() {
        return if s.Crashed? then Died else Refused, env.faults;
      }
      if !previous {
        s := SetMaintenance(true);
        sofar := env.faults;
        if s.Crashed? {
          return Died, sofar;
        }
        if s.Failed? {
          s := SetMaintenance(previous);
          if s.Done? {
            s := Write(None);
          }
          return if s.Crashed? then Died else Refused, sofar;
        }
      }
      return Ran(true, true, names), env.faults;
    }

    /** `run_drupal`. */
    method Handle(r: Request) returns (a: Answer<string>)
      requires env.alive
      requires Valid()
      modifies this, env
      ensures env.alive <==> !a.Died?
      ensures Valid()
      ensures old(saved).Some? && saved != old(saved) && !Overlooks(r, old(saved)) ==>
                r.mode.Off? && saved.None? && maintenance == original
      // what has to come back stays the same, unless the saved mode is overlooked
      ensures !Overlooks(r, old(saved)) ==> original == old(original)
      ensures Overlooks(r, old(saved)) ==> original == old(original) || original == old(maintenance)
      ensures Overlooks(r, old(saved)) && a.Ran? ==> original == old(maintenance)
      ensures r.mode.On? && old(saved).Some? && a.Ran? ==>
                (original == old(original) <==> !r.blind || old(maintenance) == old(original))
      // the answers
      ensures r.mode.Status? ==> maintenance == old(maintenance) && saved == old(saved)
      ensures r.mode.Status? && a.Ran? ==>
                a == if saved.Some? && !r.blind then Ran(true, false, saved.value.modules) else Ran(false, false, [])
      ensures r.mode.On? && a.Ran? ==>
                && saved.Some? && maintenance && a.safeMode && a.extensions == saved.value.modules
                && (a.changed <==> old(saved).None? || r.blind || !old(maintenance))
      ensures r.mode.Off? && a.Ran? ==>
                a == if old(saved).Some? && !r.blind
                     then Ran(false, old(maintenance) != old(saved).value.maintenance, old(saved).value.modules)
                     else Ran(false, false, [])
      ensures r.mode.Off? && a.Ran? ==> (saved.None? <==> !(r.blind && old(saved).Some?))
      ensures r.mode.Off? && a.Ran? && saved.None? ==> maintenance == original
      ensures env.faults >= old(env.faults) && modules == old(modules)
      ensures env.faults == old(env.faults) ==>
                (a.Ran? <==> (r.mode.On? && (old(saved).None? || r.blind) ==> AreListable(x => x, modules)))
      ensures env.reliable ==> env.faults == old(env.faults)
    {
      var seen := saved.Some? && !r.blind;
      if seen {
        var s := env.Attempt();
        if s.IsFailure() {
          return if s.Crashed? then Died else Refused;
        }
      }
      if r.mode.Status? || (r.mode.Off? && !seen) {
        return if seen then Ran(true, false, saved.value.modules) else Ran(false, false, []);
      }
      if r.mode.On? && !seen {
        ghost var sofar;
        a, sofar := TurnOn();
        return;
      }
      var s := env.Attempt();
      if s.IsFailure() {
        return if s.Crashed? then Died else Refused;
      }
      var names := saved.value.modules;
      var wanted := if r.mode.On? then true else saved.value.maintenance;
      var changed := maintenance != wanted;
      if changed {
        s := SetMaintenance(wanted);
        if s.IsFailure() {
          return if s.Crashed? then Died else Refused;
        }
      }
      if r.mode.Off? {
        s := Write(None);
        if s.IsFailure() {
          return if s.Crashed? then Died else Refused;
        }
      }
      return Ran(r.mode.On?, changed, names);
    }

    /** Any run of requests, with failures and deaths, ends in the mode the site
        was in, or with that mode saved, unless a saved mode was overlooked;
        whatever modules are enabled meanwhile. */
    method Serve(requests: seq<Request>) returns (ghost overlooked: nat)
      requires Valid() && saved.None?
      modifies this, env
      ensures Valid()
      ensures overlooked == 0 ==> (if saved.Some? then saved.value.maintenance else maintenance) == old(maintenance)
      ensures (forall r | r in requests :: !(r.blind && r.mode.On?)) ==> overlooked == 0
    {
      overlooked := 0;
      for i := 0 to |requests|
        invariant Valid() && (overlooked == 0 ==> original == old(maintenance))
        invariant (forall r | r in requests :: !(r.blind && r.mode.On?)) ==> overlooked == 0
      {
        assert requests[i] in requests;
        if Overlooks(requests[i], saved) {
          overlooked := overlooked + 1;
        }
        modules := *;
        env.Restart();
        var _ := Handle(requests[i]);
      }
    }
  }

  /** The saved mode for which the check fails is replaced by maintenance mode
      itself, and the site does not come out of it. */
  method ModeForgotten(modules: set<string>)
    returns (before: bool, after: bool, a: Answer<string>, b: Answer<string>, c: Answer<string>)
    requires AreListable(x => x, modules)
    ensures a.Ran? && b.Ran? && c.Ran? && !before && after
  {
    before := false;
    var env := new Environment(true);
    var site := new MaintenanceSite(env, before, modules);
    a := site.Handle(Request(On, false));
    b := site.Handle(Request(On, true));
    c := site.Handle(Request(Off, false));
    after := site.maintenance;
  }
}
