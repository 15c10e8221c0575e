/** The developer-mode main loop: load the modules, start the server if it is
    not running, run it, stop it if a module it depends on was replaced, unload
    the replaced modules, and go round again. */
module HotReload {
  import opened Common

  const MODULE_NAMES: seq<string> := [
    "conduwuit_database",
    "conduwuit_service",
    "conduwuit_api",
    "conduwuit_admin",
    "conduwuit_router"
  ]

  const RESTART_THRESH: string := "conduwuit_service"

  /** Whether a module's file was replaced on disk, as far as one can tell. */
  datatype Probe = Intact | Deleted | Unreadable

  /** What the outside world answers during one round. */
  datatype Round = Round(
    loads: seq<bool>,        // whether each module can be loaded
    startOk: bool,           // the start symbol is found, and starting succeeds
    runFound: bool,          // the run symbol is found
    runOk: bool,             // running succeeds
    reloading: bool,         // the server stopped in order to reload
    check: seq<Probe>,       // module files when `run` looks
    stopFound: bool,         // the stop symbol is found
    stopOk: bool,            // stopping succeeds
    unload: seq<Probe>)      // module files when `close` looks

  predicate WfRound(r: Round) {
    |r.loads| == |r.check| == |r.unload| == |MODULE_NAMES|
  }

  datatype RunResult = Continue(starts: bool, reloads: bool) | Failed | Panicked

  /** Index of the first replaced module, or a read error. */
  datatype Index = At(i: nat) | ReadError

  /** The lowest replaced module among the first n, n if there is none. */
  function Stale(probes: seq<Probe>, from: nat, n: nat): (r: Index)
    requires from <= n <= |probes|
    ensures r.At? ==> from <= r.i <= n && forall j :: from <= j < r.i ==> probes[j] == Intact
    ensures r.At? && r.i < n ==> probes[r.i] == Deleted
    ensures r.ReadError? ==>
      exists j :: from <= j < n && probes[j] == Unreadable && forall i :: from <= i < j ==> probes[i] == Intact
    decreases n - from
  {
    if from == n then At(n)
    else match probes[from]
      case Deleted => At(from)
      case Unreadable => ReadError
      case Intact => Stale(probes, from + 1, n)
  }

  /** How many of n stacked modules a non-forced unload leaves. */
  function Kept(probes: seq<Probe>, n: nat): (r: Index)
    requires n <= |probes|
    ensures r.At? ==> r.i <= n && (forall j :: r.i <= j < n ==> probes[j] == Deleted)
    ensures r.At? && r.i > 0 ==> probes[r.i - 1] == Intact
    ensures r.ReadError? ==>
      exists j :: 0 <= j < n && probes[j] == Unreadable && forall i :: j < i < n ==> probes[i] == Deleted
  {
    if n == 0 then At(0)
    else match probes[n - 1]
      case Deleted => Kept(probes, n - 1)
      case Unreadable => ReadError
      case Intact => At(n)
  }

  /** The module from which on a replacement needs no restart of the services. */
  method RestartThresh() returns (i: nat)
    ensures i == 1 && MODULE_NAMES[i] == RESTART_THRESH
  {
    i := 0;
    assert MODULE_NAMES[1] == RESTART_THRESH;
    assert MODULE_NAMES[0][10] != RESTART_THRESH[10];
    while i < |MODULE_NAMES| && !EndsWith(MODULE_NAMES[i], RESTART_THRESH)
      invariant i <= 1
    {
      ThreshIsSecond(i);
      i := i + 1;
    }
    ThreshIsSecond(i);
  }

  lemma ThreshIsSecond(i: nat)
    requires i <= 1
    ensures EndsWith(MODULE_NAMES[i], RESTART_THRESH) <==> i == 1
  {
    var a, t := MODULE_NAMES[0], RESTART_THRESH;
    assert |a| == 18 && |t| == 17;
    assert a[1..][0] == 'o' && t[0] == 'c';
    assert EndsWith(t, t) by {
      assert t[0..] == t;
    }
  }

  /** Whether a round that ran takes the services down: for good, or because
      the database or the service module was replaced. */
  predicate Stops(r: Round, n: nat)
    requires n <= |r.check|
  {
    !r.reloading || (Stale(r.check, 0, n).At? && Stale(r.check, 0, n).i <= 1)
  }

  /** What is seen at the head of the loop. */
  datatype Head = Head(starts: bool, live: bool)

  /** What is remembered of an unload: whether it was forced, whether services
      were live, how many modules it left, and whether the module files were
      the same as when `run` looked. */
  datatype Unload = Unload(forced: bool, live: bool, left: nat, sameFiles: bool)

  class Server {
    var mods: seq<string>
    var services: bool        // a services object exists
    ghost var heads: seq<Head>
    ghost var unloads: seq<Unload>

    /** The stack holds the first modules of the list, in order. */
    ghost predicate Stacked()
      reads this
    {
      mods <= MODULE_NAMES
    }

    constructor ()
      ensures mods == [] && !services && heads == [] && unloads == []
    {
      mods, services, heads, unloads := [], false, [], [];
    }

    /** Load the missing modules, from the bottom up. */
    method Open(r: Round) returns (ok: bool)
      requires Stacked() && WfRound(r)
      modifies this`mods
      ensures Stacked() && old(mods) <= mods
      ensures ok ==> mods == MODULE_NAMES
      ensures ok <==> forall i :: |old(mods)| <= i < |MODULE_NAMES| ==> r.loads[i]
      ensures forall i :: |old(mods)| <= i < |mods| ==> r.loads[i]
      ensures !ok ==> |mods| < |MODULE_NAMES| && !r.loads[|mods|]
    {
      var i := 0;
      while i < |MODULE_NAMES|
        invariant 0 <= i <= |MODULE_NAMES|
        invariant Stacked() && old(mods) <= mods
        invariant |mods| == if |old(mods)| > i then |old(mods)| else i
        invariant forall j :: |old(mods)| <= j < i ==> r.loads[j]
      {
        if i >= |mods| {
          if !r.loads[i] {
            return false;
          }
          mods := mods + [MODULE_NAMES[i]];
        }
        i := i + 1;
      }
      ok := true;
    }

    /** The first replaced module of the stack. */
    method FindStale(probes: seq<Probe>) returns (s: Index)
      requires |mods| <= |probes|
      ensures s == Stale(probes, 0, |mods|)
    {
      var i := 0;
      while i < |mods|
        invariant 0 <= i <= |mods|
        invariant Stale(probes, 0, |mods|) == Stale(probes, i, |mods|)
      {
        if probes[i].Deleted? {
          return At(i);
        }
        if probes[i].Unreadable? {
          return ReadError;
        }
        i := i + 1;
      }
      s := At(|mods|);
    }

    /** Start if asked, run, and stop unless only upper modules were replaced.
        The expectations in it fail exactly when no module is loaded, or when
        it finds what to run it with, is not asked to start and nothing was started. */
    method Run(starts: bool, r: Round) returns (res: RunResult)
      requires WfRound(r) && Stacked()
      modifies this`services
      ensures res.Panicked? <==> mods == [] || (!starts && !old(services) && r.runFound)
      ensures res.Continue? <==>
        mods != [] && (if starts then r.startOk else old(services)) && r.runFound && r.runOk &&
        (r.reloading ==> Stale(r.check, 0, |mods|).At?) && (Stops(r, |mods|) ==> r.stopFound && r.stopOk)
      ensures res.Continue? ==> res.reloads == r.reloading && res.starts == (r.reloading && Stops(r, |mods|))
      ensures res.Continue? ==> services == !Stops(r, |mods|)
      ensures res.Continue? ==>
        services == (r.reloading && |mods| > 1 && r.check[0] == Intact && r.check[1] == Intact)
      ensures res.Failed? && starts && !r.startOk ==> services == old(services)
      ensures res.Failed? && (starts ==> r.startOk) ==>
        services == ((starts || old(services)) && (!r.runFound || !r.runOk || !Stops(r, |mods|) || !r.stopFound))
    {
      if mods == [] {
        return Panicked;
      }
      if starts {
        if !r.startOk {
          return Failed;
        }
        services := true;
      }
      if !r.runFound {
        return Failed;
      }
      if !services {
        return Panicked;
      }
      if !r.runOk {
        return Failed;
      }
      var reloads := r.reloading;
      var stops := true;
      if reloads {
        var s := FindStale(r.check);
        if s.ReadError? {
          return Failed;
        }
        var thresh := RestartThresh();
        stops := s.i <= thresh;
      }
      if stops {
        if !r.stopFound {
          return Failed;
        }
        if !services {
          return Panicked;
        }
        services := false;
        if !r.stopOk {
          return Failed;
        }
      }
      res := Continue(reloads && stops, reloads);
    }

    /** Unload from the top: everything if forced, else while modules are replaced. */
    method Close(force: bool, probes: seq<Probe>, ghost sameFiles: bool) returns (ok: bool)
      requires Stacked() && |mods| <= |probes|
      modifies this`mods, this`unloads
      ensures Stacked() && mods <= old(mods)
      ensures force ==> ok && mods == []
      ensures !force && ok ==> Kept(probes, |old(mods)|) == At(|mods|)
      ensures !ok ==> !force && Kept(probes, |old(mods)|) == ReadError
      ensures !ok ==> mods != [] && probes[|mods| - 1] == Unreadable
      ensures forall j :: |mods| <= j < |old(mods)| ==> force || probes[j] == Deleted
      ensures unloads == old(unloads) + [Unload(force, services, |mods|, sameFiles)]
    {
      while mods != []
        invariant Stacked() && mods <= old(mods) && |mods| <= |probes|
        invariant !force ==> Kept(probes, |old(mods)|) == Kept(probes, |mods|)
        invariant forall j :: |mods| <= j < |old(mods)| ==> force || probes[j] == Deleted
        invariant unloads == old(unloads)
        decreases |mods|
      {
        var top := |mods| - 1;
        if !force && probes[top].Unreadable? {
          unloads := unloads + [Unload(force, services, |mods|, sameFiles)];
          return false;
        }
        if force || probes[top].Deleted? {
          mods := mods[..top];
        } else {
          break;
        }
      }
      unloads := unloads + [Unload(force, services, |mods|, sameFiles)];
      ok := true;
    }

    /** No unload that was not forced took the database or service module away
        from live services, while the module files stayed as `run` saw them. */
    ghost predicate UnloadsSafe()
      reads this
    {
      forall i :: 0 <= i < |unloads| ==>
        !unloads[i].forced && unloads[i].live && unloads[i].sameFiles ==> unloads[i].left > 1
    }

    /** At each round the server is started exactly when it is not running. */
    ghost predicate HeadsAgree()
      reads this
    {
      forall i :: 0 <= i < |heads| ==> heads[i].starts == !heads[i].live
    }

    /** The main loop over the rounds the world plays. It never panics. */
    method AsyncMain(rounds: seq<Round>) returns (ok: bool, ended: bool, panicked: bool)
      requires mods == [] && !services && unloads == [] && heads == []
      requires forall i :: 0 <= i < |rounds| ==> WfRound(rounds[i])
      modifies this
      ensures !panicked
      ensures HeadsAgree() && UnloadsSafe() && Stacked()
      ensures ended && ok ==> mods == [] && !services
      ensures |heads| <= |rounds| && (!ended ==> |heads| == |rounds|)
      ensures forall i :: 0 <= i < |heads| && (i + 1 < |heads| || !ended) ==> rounds[i].reloading
      ensures ended && ok ==> |heads| > 0 && !rounds[|heads| - 1].reloading
    {
      var starts, reloads := true, true;
      ok, ended, panicked := true, false, false;
      var n := 0;
      while reloads && n < |rounds|
        invariant n == |heads| <= |rounds|
        invariant Stacked() && UnloadsSafe() && HeadsAgree()
        invariant reloads ==> starts == !services
        invariant !reloads ==> mods == [] && !services
        invariant forall i :: 0 <= i < |heads| && (i + 1 < |heads| || reloads) ==> rounds[i].reloading
        invariant !reloads ==> |heads| > 0 && !rounds[|heads| - 1].reloading
        decreases |rounds| - n
      {
        var r := rounds[n];
        n := n + 1;
        heads := heads + [Head(starts, services)];
        var loaded := Open(r);
        if !loaded {
          return false, true, false;
        }
        var result := Run(starts, r);
        if result.Panicked? {
          return false, true, true;
        }
        if result.Continue? {
          starts, reloads := result.starts, result.reloads;
        }
        var force := !reloads || !result.Continue?;
        var closed := Close(force, r.unload, r.check == r.unload);
        assert !force && services ==> Stale(r.check, 0, |MODULE_NAMES|).At?;
        if !closed {
          return false, true, false;
        }
        if !result.Continue? {
          return false, true, false;
        }
      }
      ended := !reloads;
    }
  }
}
