/** The bookkeeping of the watch command (watch/watcher.go): which targets
    are built, which sources are watched, when project.json is reloaded
    and when a source change triggers a build.

    Modification times are integers, with 0 standing for Go's zero
    time.Time and `>` for time.After. A stat or a project load that fails
    is None. */
module Watcher {
  import opened Wrappers
  import opened Data

  type Time = int

  /** time.Time{}, the time every source starts at. */
  const ZeroTime: Time := 0

  /** The formats the user asked to watch (--html, --pdf). */
  datatype Config = Config(html: bool, pdf: bool)

  datatype Watcher = Watcher(
    cfg: Config,
    project: Option<Project>,
    sources: map<string, Time>,
    projectModTime: Time)

  /** newWatcher: no project yet and no sources, so the watcher starts out
      consistent and with nothing to poll. */
  function NewWatcher(cfg: Config): (r: Watcher)
    ensures r.cfg == cfg && r.project.None?
    ensures Consistent(r)
    ensures forall observed :: !Changed(r.sources, observed)
  {
    Watcher(cfg, None, map[], ZeroTime)
  }

  /** What the watcher keeps true between steps: before a project is loaded
      no source is watched; afterwards the project's targets are already
      filtered by the configuration and the watched sources are exactly the
      project's sources. */
  predicate Consistent(w: Watcher) {
    match w.project
    case None => w.sources == map[]
    case Some(p) => FilterTargets(w.cfg, p.targets) == p.targets && w.sources.Keys == (set s | s in p.sources)
  }

  /** A target survives the filter unless it is a format the user did not ask for. */
  predicate Kept(cfg: Config, target: string) {
    !(target == "html" && !cfg.html) && !(target == "pdf" && !cfg.pdf)
  }

  /** The slices.DeleteFunc call of loadProject: every occurrence of a kept
      target survives and no other does. */
  function FilterTargets(cfg: Config, targets: seq<string>): (r: seq<string>)
    ensures |r| <= |targets|
    ensures forall t :: multiset(r)[t] == if Kept(cfg, t) then multiset(targets)[t] else 0
  {
    if targets == [] then []
    else
      assert targets == [targets[0]] + targets[1..];
      (if Kept(cfg, targets[0]) then [targets[0]] else []) + FilterTargets(cfg, targets[1..])
  }

  /** The filter keeps order: filtering a concatenation concatenates the
      filtered parts. */
  lemma {:induction false} FilterTargetsAppend(cfg: Config, a: seq<string>, b: seq<string>)
    ensures FilterTargets(cfg, a + b) == FilterTargets(cfg, a) + FilterTargets(cfg, b)
    decreases |a|
  {
    if a == [] {
      assert a + b == b;
    } else {
      assert (a + b)[1..] == a[1..] + b;
      FilterTargetsAppend(cfg, a[1..], b);
    }
  }

  /** Filtering twice is filtering once. */
  lemma {:induction false} FilterTargetsIdempotent(cfg: Config, targets: seq<string>)
    ensures FilterTargets(cfg, FilterTargets(cfg, targets)) == FilterTargets(cfg, targets)
    decreases |targets|
  {
    if targets != [] {
      var head := if Kept(cfg, targets[0]) then [targets[0]] else [];
      FilterTargetsAppend(cfg, head, FilterTargets(cfg, targets[1..]));
      FilterTargetsIdempotent(cfg, targets[1..]);
      if Kept(cfg, targets[0]) {
        assert head[1..] == [];
      }
    }
  }

  /** The sources loop of loadProject: every source, mapped to the zero time. */
  function InitialSources(sources: seq<string>): (r: map<string, Time>)
    ensures r.Keys == set s | s in sources
    ensures forall s :: s in r ==> r[s] == ZeroTime
  {
    if sources == [] then map[]
    else
      var last := |sources| - 1;
      assert sources == sources[..last] + [sources[last]];
      InitialSources(sources[..last])[sources[last] := ZeroTime]
  }

  /** loadProject, given the result of loading project.json and of reading
      its modification time: either failure leaves the watcher as it was
      (None); otherwise the project is replaced, its targets filtered, the
      sources reset and the modification time recorded. */
  function LoadProject(w: Watcher, loaded: Option<Project>, modTime: Option<Time>): (r: Option<Watcher>)
    ensures loaded.None? || modTime.None? ==> r.None?
    ensures loaded.Some? && modTime.Some? ==>
              && r.Some?
              && r.value.cfg == w.cfg
              && r.value.projectModTime == modTime.value
              && r.value.project == Some(loaded.value.(targets := FilterTargets(w.cfg, loaded.value.targets)))
              && r.value.sources.Keys == (set s | s in loaded.value.sources)
              && forall s :: s in r.value.sources ==> r.value.sources[s] == ZeroTime
  {
    match (loaded, modTime)
    case (Some(p), Some(t)) =>
      Some(Watcher(w.cfg, Some(p.(targets := FilterTargets(w.cfg, p.targets))), InitialSources(p.sources), t))
    case _ => None
  }

  /** reloadProject, given the modification time of project.json it reads
      first, and the load and modification time loadProject then reads. */
  function ReloadProject(w: Watcher, stat: Option<Time>, loaded: Option<Project>, modTime: Option<Time>): (r: Watcher)
    ensures stat.None? || stat.value <= w.projectModTime ==> r == w
    ensures stat.Some? && stat.value > w.projectModTime ==>
              match LoadProject(w, loaded, modTime)
              case None => r == w
              case Some(w') => r == w'
  {
    if stat.Some? && stat.value > w.projectModTime then
      match LoadProject(w, loaded, modTime)
      case Some(w') => w'
      case None => w
    else w
  }

  /** A source was modified after the time recorded for it. */
  predicate Changed(sources: map<string, Time>, observed: string -> Time) {
    exists k :: k in sources && observed(k) > sources[k]
  }

  /** The recorded times after a poll that observed `observed`. */
  function Advance(sources: map<string, Time>, observed: string -> Time): (r: map<string, Time>)
    ensures r.Keys == sources.Keys
    ensures forall k :: k in r ==> r[k] >= sources[k] && r[k] >= observed(k)
    ensures forall k :: k in r ==> r[k] == sources[k] || r[k] == observed(k)
  {
    map k | k in sources :: if observed(k) > sources[k] then observed(k) else sources[k]
  }

  /** The change detection of runBuild: each recorded time is replaced by
      the observed one exactly when that is later, and a build is started
      exactly when some source changed. The order in which the map is
      visited does not matter. */
  method RunBuild(sources: map<string, Time>, observed: string -> Time)
    returns (updated: map<string, Time>, rebuild: bool)
    ensures updated == Advance(sources, observed)
    ensures rebuild <==> Changed(sources, observed)
  {
    updated := sources;
    rebuild := false;
    var todo := sources.Keys;
    while todo != {}
      invariant todo <= sources.Keys
      invariant updated.Keys == sources.Keys
      invariant forall k :: k in todo ==> updated[k] == sources[k]
      invariant forall k :: k in sources && k !in todo ==> updated[k] == Advance(sources, observed)[k]
      invariant rebuild <==> exists k :: k in sources && k !in todo && observed(k) > sources[k]
      decreases todo
    {
      var key :| key in todo;
      var modTime := observed(key);
      if modTime > updated[key] {
        updated := updated[key := modTime];
        rebuild := true;
      }
      todo := todo - {key};
    }
  }

  /** A second poll that observes the same times starts no build. */
  lemma PollAgainIsQuiet(sources: map<string, Time>, observed: string -> Time)
    ensures !Changed(Advance(sources, observed), observed)
  {
  }

  /** Recorded times never decrease, over any number of polls. */
  lemma {:induction false} TimesNeverDecrease(sources: map<string, Time>, polls: seq<string -> Time>)
    ensures var r := AdvanceAll(sources, polls);
            r.Keys == sources.Keys && forall k :: k in sources ==> r[k] >= sources[k]
    decreases |polls|
  {
    if polls != [] {
      TimesNeverDecrease(Advance(sources, polls[0]), polls[1..]);
    }
  }

  /** The recorded times after a sequence of polls. */
  function AdvanceAll(sources: map<string, Time>, polls: seq<string -> Time>): map<string, Time>
    decreases |polls|
  {
    if polls == [] then sources else AdvanceAll(Advance(sources, polls[0]), polls[1..])
  }

  /** After a (re)load every source starts at the zero time, so the next
      poll builds exactly when some source has a modification time after it. */
  lemma LoadThenPoll(w: Watcher, p: Project, t: Time, observed: string -> Time)
    ensures var r := LoadProject(w, Some(p), Some(t)).value;
            Changed(r.sources, observed) <==> exists s :: s in p.sources && observed(s) > ZeroTime
  {
    var r := LoadProject(w, Some(p), Some(t)).value;
    if exists s :: s in p.sources && observed(s) > ZeroTime {
      var s :| s in p.sources && observed(s) > ZeroTime;
      assert s in r.sources;
    }
  }

  /** A successful load always leaves the watcher consistent, whatever state
      it started from. */
  lemma LoadProjectConsistent(w: Watcher, loaded: Option<Project>, modTime: Option<Time>)
    ensures LoadProject(w, loaded, modTime).Some? ==> Consistent(LoadProject(w, loaded, modTime).value)
  {
    if loaded.Some? && modTime.Some? {
      FilterTargetsIdempotent(w.cfg, loaded.value.targets);
    }
  }

  /** One iteration of the watch loop, a reload followed by a poll, keeps
      the watcher consistent: the poll neither adds nor drops a source. */
  lemma IterationKeepsConsistent(w: Watcher, stat: Option<Time>, loaded: Option<Project>,
                                 modTime: Option<Time>, observed: string -> Time)
    requires Consistent(w)
    ensures var w' := ReloadProject(w, stat, loaded, modTime);
            && Consistent(w')
            && Consistent(w'.(sources := Advance(w'.sources, observed)))
  {
    LoadProjectConsistent(w, loaded, modTime);
  }
}
