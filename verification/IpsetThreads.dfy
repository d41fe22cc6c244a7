/** The firewall daemon's threads rebuilding the block list at once (timer_thread_entry and firewall_notify
    in firewall-daemon/iptracking-firewalld.c): no lock is common to their rebuilds, so any interleaving of
    single kernel commands is a run.  A thread's program counter says which command it issues next. */
module IpsetThreads {
  import opened Options
  import opened Ipset

  /** A fetched list, what the create before it found left over in the rebuild set, and how the adds of its
      first entries went. */
  datatype Load = Load(list: seq<Entry>, left: set<Entry>, fates: seq<Fate>)

  datatype Pc =
    | Idle
    | Creating
    | Adding(load: Load)
    | Swapping(load: Load)
    | Renaming(load: Load)
    | Cleaning

  /** The kernel, the EXIST option of the session that the threads share, each thread's program counter, every
      entry fetched in a block list so far, and the load whose activation was the latest to succeed. */
  datatype State = State(kernel: Kernel, exist: bool, pcs: seq<Pc>, fetched: set<Entry>, activated: Option<Load>)

  /** A thread moves: how the parsing before its command and the command go, and the list it fetches
      when the move is a successful create. */
  datatype Move = Move(thread: nat, parse: bool, command: bool, list: seq<Entry>)

  function Issue(s: State, m: Move, c: Command): (Kernel, bool) {
    (Do(s.kernel, c, m.parse && m.command), m.parse && Succeeds(s.kernel, c, m.command))
  }

  function At(s: State, m: Move, k: Kernel, pc: Pc): State
    requires m.thread < |s.pcs|
  {
    s.(kernel := k, pcs := s.pcs[m.thread := pc])
  }

  /** One turn of the fill loop, which sets the EXIST option once the entry is parsed. */
  function AddNext(s: State, m: Move, load: Load, rebuild: Name): (Kernel, Load)
    requires |load.fates| < |load.list|
  {
    var x := load.list[|load.fates|];
    var (k, ok) := if x == "" then (s.kernel, true) else Issue(s, m, CmdAdd(rebuild, x));
    (k, load.(fates := load.fates + [Fate(m.parse, ok)]))
  }

  /** One command of one thread; a move of a thread that does not exist changes nothing. */
  function Step(s: State, m: Move, rebuild: Name, prod: Name): State {
    if m.thread >= |s.pcs| then s else
    match s.pcs[m.thread]
    case Idle =>                       // the result of this destroy is ignored
      At(s, m, Issue(s, m, CmdDestroy(rebuild)).0, Creating)
    case Creating =>
      var (k, ok) := Issue(s, m, CmdCreate(rebuild, s.exist));
      if ok then At(s, m, k, Adding(Load(m.list, k[rebuild], []))).(fetched := s.fetched + set x | x in m.list)
      else At(s, m, k, Idle)
    case Adding(load) =>
      if |load.fates| >= |load.list| then At(s, m, s.kernel, Swapping(load))
      else
        At(s, m, AddNext(s, m, load, rebuild).0, Adding(AddNext(s, m, load, rebuild).1))
          .(exist := s.exist || (load.list[|load.fates|] != "" && m.parse))
    case Swapping(load) =>
      var (k, ok) := Issue(s, m, CmdSwap(rebuild, prod));
      if ok then At(s, m, k, Cleaning).(activated := Some(load))
      else At(s, m, k, if m.parse then Renaming(load) else Cleaning)
    case Renaming(load) =>
      var (k, ok) := Issue(s, m, CmdRename(rebuild, prod));
      if ok then At(s, m, k, Idle).(activated := Some(load)) else At(s, m, k, Cleaning)
    case Cleaning =>                   // issued even when the name was not parsed
      At(s, m, Do(s.kernel, if m.parse then CmdDestroy(rebuild) else CmdDestroyAll, m.command), Idle)
  }

  /** A destroy that names no set goes through. */
  predicate Wipes(s: State, m: Move) {
    m.thread < |s.pcs| && s.pcs[m.thread].Cleaning? && !m.parse && m.command
  }

  function Run(s: State, moves: seq<Move>, rebuild: Name, prod: Name): State {
    if moves == [] then s
    else Step(Run(s, moves[..|moves| - 1], rebuild, prod), moves[|moves| - 1], rebuild, prod)
  }

  predicate Started(k: Kernel, s: State) {
    s.kernel == k && !s.exist && s.fetched == {} && s.activated == None && forall i :: 0 <= i < |s.pcs| ==> s.pcs[i] == Idle
  }

  /** A thread that has created the rebuild set and not yet finished with it. */
  predicate Building(pc: Pc) {
    !pc.Idle? && !pc.Creating?
  }

  predicate SomeBuilding(s: State) {
    exists i :: 0 <= i < |s.pcs| && Building(s.pcs[i])
  }

  /** Where the entries of the production set may come from. */
  function Sources(k0: Kernel, prod: Name, s: State): set<Entry> {
    (if prod in k0 then k0[prod] else {}) + s.fetched
  }

  /** The entries of a load that the thread is still to add or has added come from the fetched lists. */
  ghost predicate Fetched(pc: Pc, fetched: set<Entry>) {
    pc.Adding? ==> forall x :: x in pc.load.list ==> x in fetched
  }

  /** The production set holds sourced entries only; so does the rebuild set, except for what an earlier
      process left, which no thread builds on: the first create of this one needs the set to be gone. */
  ghost predicate Inv(k0: Kernel, s: State, rebuild: Name, prod: Name) {
    && (prod in s.kernel ==> s.kernel[prod] <= Sources(k0, prod, s))
    && (rebuild in s.kernel && (s.exist || SomeBuilding(s)) ==> s.kernel[rebuild] <= Sources(k0, prod, s))
    && (forall i :: 0 <= i < |s.pcs| ==> Fetched(s.pcs[i], s.fetched))
  }

  lemma StepKeepsFetched(s: State, m: Move, rebuild: Name, prod: Name)
    requires forall i :: 0 <= i < |s.pcs| ==> Fetched(s.pcs[i], s.fetched)
    ensures var s' := Step(s, m, rebuild, prod);
      && s.fetched <= s'.fetched
      && forall i :: 0 <= i < |s'.pcs| ==> Fetched(s'.pcs[i], s'.fetched)
  {
    hide Do, Succeeds;
    if m.thread < |s.pcs| {
      assert Fetched(s.pcs[m.thread], s.fetched);
    }
  }

  /** Where a command's sets come from. */
  lemma StepSources(s: State, m: Move, rebuild: Name, prod: Name, sources: set<Entry>)
    requires rebuild != prod && m.thread < |s.pcs| && Fetched(s.pcs[m.thread], sources)
    requires prod in s.kernel ==> s.kernel[prod] <= sources
    requires (s.exist || Building(s.pcs[m.thread])) && rebuild in s.kernel ==> s.kernel[rebuild] <= sources
    ensures var s' := Step(s, m, rebuild, prod);
      var created := s.pcs[m.thread].Creating? && s'.pcs[m.thread].Adding?;
      && (prod in s'.kernel ==> s'.kernel[prod] <= sources)
      && (rebuild in s'.kernel && created ==> s'.kernel[rebuild] <= sources)
      && (rebuild in s'.kernel && rebuild in s.kernel && s.kernel[rebuild] <= sources ==> s'.kernel[rebuild] <= sources)
      && (rebuild in s'.kernel && rebuild !in s.kernel ==> s'.kernel[rebuild] <= sources)
  {
  }

  lemma StepKeepsInv(k0: Kernel, s: State, m: Move, rebuild: Name, prod: Name)
    requires rebuild != prod && Inv(k0, s, rebuild, prod)
    ensures Inv(k0, Step(s, m, rebuild, prod), rebuild, prod)
  {
    hide Do, Succeeds, Fetched;
    StepKeepsFetched(s, m, rebuild, prod);
    if m.thread < |s.pcs| {
      var pc, s' := s.pcs[m.thread], Step(s, m, rebuild, prod);
      assert Building(pc) ==> SomeBuilding(s);
      FetchedMore(pc, s.fetched, Sources(k0, prod, s));
      StepSources(s, m, rebuild, prod, Sources(k0, prod, s));
      assert Sources(k0, prod, s) <= Sources(k0, prod, s');
      if SomeBuilding(s') && !SomeBuilding(s) {
        var i :| 0 <= i < |s'.pcs| && Building(s'.pcs[i]);
        assert i == m.thread && pc.Creating?;
      }
    }
  }

  lemma FetchedMore(pc: Pc, fetched: set<Entry>, more: set<Entry>)
    requires Fetched(pc, fetched) && fetched <= more
    ensures Fetched(pc, more)
  {
  }

  lemma {:induction false} InvHolds(k0: Kernel, s0: State, moves: seq<Move>, rebuild: Name, prod: Name)
    requires rebuild != prod && Started(k0, s0)
    ensures Inv(k0, Run(s0, moves, rebuild, prod), rebuild, prod)
  {
    if moves == [] {
    } else {
      InvHolds(k0, s0, moves[..|moves| - 1], rebuild, prod);
      StepKeepsInv(k0, Run(s0, moves[..|moves| - 1], rebuild, prod), moves[|moves| - 1], rebuild, prod);
    }
  }

  /** In every interleaving of any number of updating threads, each entry of the production set came from
      the initial production set or from some fetched block list; left-overs under the rebuild name from
      an earlier process never get in. */
  lemma ProductionEntriesAreSourced(k0: Kernel, s0: State, moves: seq<Move>, rebuild: Name, prod: Name, x: Entry)
    requires rebuild != prod && Started(k0, s0)
    ensures var s := Run(s0, moves, rebuild, prod);
      prod in s.kernel && x in s.kernel[prod] ==> (prod in k0 && x in k0[prod]) || x in s.fetched
  {
    InvHolds(k0, s0, moves, rebuild, prod);
  }

  lemma StepPersistsIff(s: State, m: Move, rebuild: Name, prod: Name)
    requires rebuild != prod && prod in s.kernel
    ensures prod in Step(s, m, rebuild, prod).kernel <==> !Wipes(s, m)
  {
  }

  /** No destroy without a name goes through in the moves that follow a run. */
  ghost predicate NoWipe(s0: State, moves: seq<Move>, more: seq<Move>, rebuild: Name, prod: Name) {
    forall n :: 0 <= n < |more| ==> !Wipes(Run(s0, moves + more[..n], rebuild, prod), more[n])
  }

  /** Once the production set exists, it exists at every later point of a run exactly when no destroy without
      a name goes through. */
  lemma ProductionPersistsIff(s0: State, moves: seq<Move>, more: seq<Move>, rebuild: Name, prod: Name)
    requires rebuild != prod && prod in Run(s0, moves, rebuild, prod).kernel
    ensures NoWipe(s0, moves, more, rebuild, prod) <==>
      forall n :: 0 <= n <= |more| ==> prod in Run(s0, moves + more[..n], rebuild, prod).kernel
  {
    hide Run;
    forall n | 0 <= n < |more| && prod in Run(s0, moves + more[..n], rebuild, prod).kernel
      ensures prod in Run(s0, moves + more[..n + 1], rebuild, prod).kernel <==>
        !Wipes(Run(s0, moves + more[..n], rebuild, prod), more[n])
    {
      PrefixStep(s0, moves, more, n, rebuild, prod);
      StepPersistsIff(Run(s0, moves + more[..n], rebuild, prod), more[n], rebuild, prod);
    }
    if NoWipe(s0, moves, more, rebuild, prod) {
      forall n | 0 <= n <= |more|
        ensures prod in Run(s0, moves + more[..n], rebuild, prod).kernel
      {
        PersistsSoFar(s0, moves, more, n, rebuild, prod);
      }
    }
    if forall n :: 0 <= n <= |more| ==> prod in Run(s0, moves + more[..n], rebuild, prod).kernel {
      forall n | 0 <= n < |more|
        ensures !Wipes(Run(s0, moves + more[..n], rebuild, prod), more[n])
      {
        assert prod in Run(s0, moves + more[..n + 1], rebuild, prod).kernel;
      }
    }
  }

  lemma PrefixStep(s0: State, moves: seq<Move>, more: seq<Move>, n: nat, rebuild: Name, prod: Name)
    requires n < |more|
    ensures Run(s0, moves + more[..n + 1], rebuild, prod) ==
      Step(Run(s0, moves + more[..n], rebuild, prod), more[n], rebuild, prod)
  {
    assert moves + more[..n + 1] == (moves + more[..n]) + [more[n]];
    var _ := RunOneMore(s0, moves + more[..n], more[n], rebuild, prod);
  }

  lemma {:induction false} PersistsSoFar(s0: State, moves: seq<Move>, more: seq<Move>, n: nat, rebuild: Name, prod: Name)
    requires rebuild != prod && prod in Run(s0, moves, rebuild, prod).kernel && n <= |more|
    requires NoWipe(s0, moves, more, rebuild, prod)
    ensures prod in Run(s0, moves + more[..n], rebuild, prod).kernel
  {
    hide Run;
    if n == 0 {
      assert moves + more[..0] == moves;
    } else {
      PersistsSoFar(s0, moves, more, n - 1, rebuild, prod);
      PrefixStep(s0, moves, more, n - 1, rebuild, prod);
      StepPersistsIff(Run(s0, moves + more[..n - 1], rebuild, prod), more[n - 1], rebuild, prod);
    }
  }

  const OPENING := State(map["p" := {"a"}], false, [Idle], {}, None)

  /** One thread publishes an empty list, and the parse before its last destroy fails: no set is left. */
  lemma UnnamedDestroyWipes()
    ensures var moves := [Well()] + [Well()] + [Well()] + [Well()];
      Run(OPENING, moves, "r", "p").kernel == map["p" := {}, "r" := {"a"}] &&
      Run(OPENING, moves + [Well().(parse := false)], "r", "p").kernel == map[]
  {
    hide Run, Step;
    OpeningSteps();
    RunStarts(OPENING, "r", "p");
    assert [] + [Well()] == [Well()];
    var s1 := RunOneMore(OPENING, [], Well(), "r", "p");
    var s2 := RunOneMore(OPENING, [Well()], Well(), "r", "p");
    var s3 := RunOneMore(OPENING, [Well()] + [Well()], Well(), "r", "p");
    var s4 := RunOneMore(OPENING, [Well()] + [Well()] + [Well()], Well(), "r", "p");
    var s5 := RunOneMore(OPENING, [Well()] + [Well()] + [Well()] + [Well()], Well().(parse := false), "r", "p");
  }

  lemma RunStarts(s: State, rebuild: Name, prod: Name)
    ensures Run(s, [], rebuild, prod) == s
  {
  }

  /** The states of that run. */
  lemma OpeningSteps()
    ensures var s := OPENING;
      var s1 := s.(pcs := [Creating]);
      var s2 := State(map["p" := {"a"}, "r" := {}], false, [Adding(Load([], {}, []))], {}, None);
      var s3 := s2.(pcs := [Swapping(Load([], {}, []))]);
      var s4 := State(map["p" := {}, "r" := {"a"}], false, [Cleaning], {}, Some(Load([], {}, [])));
      && Step(s, Well(), "r", "p") == s1 && Step(s1, Well(), "r", "p") == s2
      && Step(s2, Well(), "r", "p") == s3 && Step(s3, Well(), "r", "p") == s4
      && Step(s4, Well().(parse := false), "r", "p").kernel == map[]
  {
    var none: seq<Entry> := [];
    assert (set x | x in none) == {};
  }

  /** A move of the one thread that goes well and fetches nothing. */
  function Well(): Move {
    Move(0, true, true, [])
  }

  // ---------------------------------------------------------------- one update at a time

  /** At most one thread is past its start. */
  ghost predicate Serial(s: State) {
    forall i, j :: 0 <= i < |s.pcs| && 0 <= j < |s.pcs| && i != j ==> s.pcs[i].Idle? || s.pcs[j].Idle?
  }

  /** Every state of the run is serial, and no destroy without a name goes through. */
  ghost predicate SerialRun(s0: State, moves: seq<Move>, rebuild: Name, prod: Name)
    decreases |moves|
  {
    && Serial(Run(s0, moves, rebuild, prod))
    && (moves != [] ==>
          var front := moves[..|moves| - 1];
          SerialRun(s0, front, rebuild, prod) && !Wipes(Run(s0, front, rebuild, prod), moves[|moves| - 1]))
  }

  function LoadedOf(load: Load): set<Entry> {
    Loaded(load.list, load.fates)
  }

  /** What a load builds: its list and what it found left over. */
  function BuiltBy(load: Load): set<Entry> {
    load.left + LoadedOf(load)
  }

  /** What the production set holds after the updates so far: what the latest activated load built, else what
      it was. */
  function Expected(k0: Kernel, s: State, prod: Name): Option<set<Entry>> {
    if s.activated.Some? then Some(BuiltBy(s.activated.value)) else Content(k0, prod)
  }

  /** What it should hold: the latest activated list alone. */
  function Promised(k0: Kernel, s: State, prod: Name): Option<set<Entry>> {
    if s.activated.Some? then Some(LoadedOf(s.activated.value)) else Content(k0, prod)
  }

  /** The rebuild set of a thread that is building. */
  ghost predicate Built(k: Kernel, pc: Pc, rebuild: Name) {
    match pc
    case Adding(load) =>
      && |load.fates| <= |load.list|
      && Content(k, rebuild) == Some(load.left + Loaded(load.list[..|load.fates|], load.fates))
    case Swapping(load) => Content(k, rebuild) == Some(BuiltBy(load))
    case Renaming(load) => Content(k, rebuild) == Some(BuiltBy(load))
    case _ => true
  }

  ghost predicate SerialInv(k0: Kernel, s: State, rebuild: Name, prod: Name) {
    && Content(s.kernel, prod) == Expected(k0, s, prod)
    && forall i :: 0 <= i < |s.pcs| ==> Built(s.kernel, s.pcs[i], rebuild)
  }

  /** One more add, recorded with its outcome. */
  lemma AddKeepsBuilt(s: State, m: Move, load: Load, rebuild: Name)
    requires Built(s.kernel, Adding(load), rebuild) && |load.fates| < |load.list|
    ensures Built(AddNext(s, m, load, rebuild).0, Adding(AddNext(s, m, load, rebuild).1), rebuild)
    ensures OthersSame(s.kernel, AddNext(s, m, load, rebuild).0, {rebuild})
  {
    var n := |load.fates|;
    var x := load.list[n];
    var (k, load') := AddNext(s, m, load, rebuild);
    assert load.list[..n + 1] == load.list[..n] + [x];
    LoadedStep(load.list[..n], x, load'.fates);
    SameFates(load.list[..n], load.fates, load'.fates);
    SetAssociates(s.kernel[rebuild], {}, {});
    SetAssociates(load.left, Loaded(load.list[..n], load.fates), Added(x, FateAt(load'.fates, n)));
  }

  /** Only the fates of the entries themselves matter. */
  lemma SameFates(entries: seq<Entry>, fates: seq<Fate>, fates': seq<Fate>)
    requires |entries| <= |fates| && fates <= fates'
    ensures Loaded(entries, fates) == Loaded(entries, fates')
  {
    assert forall i :: 0 <= i < |entries| ==> FateAt(fates, i) == FateAt(fates', i);
  }

  lemma CreateBuilds(s: State, m: Move, rebuild: Name, prod: Name)
    requires m.thread < |s.pcs| && s.pcs[m.thread].Creating?
    ensures Built(Step(s, m, rebuild, prod).kernel, Step(s, m, rebuild, prod).pcs[m.thread], rebuild)
  {
    hide Loaded;
    var s' := Step(s, m, rebuild, prod);
    if s'.pcs[m.thread].Adding? {
      NothingLoaded(m.list);
      SetAssociates(s'.kernel[rebuild], {}, {});
    }
  }

  lemma AddBuilds(s: State, m: Move, rebuild: Name, prod: Name)
    requires m.thread < |s.pcs| && s.pcs[m.thread].Adding? && Built(s.kernel, s.pcs[m.thread], rebuild)
    ensures var s' := Step(s, m, rebuild, prod);
      Built(s'.kernel, s'.pcs[m.thread], rebuild) && OthersSame(s.kernel, s'.kernel, {rebuild}) && s'.activated == s.activated
  {
    hide Loaded, BuiltBy, AddNext;
    var load := s.pcs[m.thread].load;
    if |load.fates| < |load.list| {
      AddKeepsBuilt(s, m, load, rebuild);
    } else {
      assert load.list[..|load.fates|] == load.list;
      LoadedOfAll(load);
    }
  }

  /** What a thread's own command does to the sets, with no other thread at work. */
  lemma OwnStep(k0: Kernel, s: State, m: Move, rebuild: Name, prod: Name)
    requires rebuild != prod && m.thread < |s.pcs| && !Wipes(s, m)
    requires Content(s.kernel, prod) == Expected(k0, s, prod) && Built(s.kernel, s.pcs[m.thread], rebuild)
    ensures var s' := Step(s, m, rebuild, prod);
      Content(s'.kernel, prod) == Expected(k0, s', prod) && Built(s'.kernel, s'.pcs[m.thread], rebuild)
  {
    hide Loaded, BuiltBy, AddNext;
    match s.pcs[m.thread] {
      case Adding(load) => AddBuilds(s, m, rebuild, prod);
      case Creating => CreateBuilds(s, m, rebuild, prod);
      case _ =>
    }
  }

  lemma LoadedOfAll(load: Load)
    ensures BuiltBy(load) == load.left + Loaded(load.list, load.fates)
  {
  }

  lemma StepKeepsSerialInv(k0: Kernel, s: State, m: Move, rebuild: Name, prod: Name)
    requires rebuild != prod && SerialInv(k0, s, rebuild, prod)
    requires Serial(s) && Serial(Step(s, m, rebuild, prod)) && !Wipes(s, m)
    ensures SerialInv(k0, Step(s, m, rebuild, prod), rebuild, prod)
  {
    if m.thread < |s.pcs| {
      OwnStep(k0, s, m, rebuild, prod);
      var s' := Step(s, m, rebuild, prod);
      OtherPcs(s, m, rebuild, prod);
      hide Step, Expected;
      assert Built(s'.kernel, s'.pcs[m.thread], rebuild);
    }
  }

  lemma OtherPcs(s: State, m: Move, rebuild: Name, prod: Name)
    requires m.thread < |s.pcs|
    ensures var s' := Step(s, m, rebuild, prod);
      && |s'.pcs| == |s.pcs|
      && (forall i :: 0 <= i < |s.pcs| && i != m.thread ==> s'.pcs[i] == s.pcs[i])
      && (s.pcs[m.thread].Idle? ==> !s'.pcs[m.thread].Idle?)
  {
  }

  lemma NothingLoaded(list: seq<Entry>)
    ensures Loaded(list[..0], []) == {}
  {
  }

  /** In every run with one update at a time, commands free to fail, the production set holds at the end (and
      so at every point) what the latest activated load built, or what it held at the start; and that is the
      loaded list alone exactly when nothing was left over that the list does not load as well. */
  lemma SerialRunsPublishWhole(s0: State, moves: seq<Move>, rebuild: Name, prod: Name)
    requires rebuild != prod && Started(s0.kernel, s0) && SerialRun(s0, moves, rebuild, prod)
    ensures var s := Run(s0, moves, rebuild, prod);
      && Content(s.kernel, prod) == Expected(s0.kernel, s, prod)
      && (Content(s.kernel, prod) == Promised(s0.kernel, s, prod) <==>
            (s.activated.Some? ==> s.activated.value.left <= LoadedOf(s.activated.value)))
  {
    SerialInvHolds(s0, moves, rebuild, prod);
    var s := Run(s0, moves, rebuild, prod);
    if s.activated.Some? {
      UnionIffSubset(s.activated.value.left, LoadedOf(s.activated.value));
    }
  }

  lemma {:induction false} SerialInvHolds(s0: State, moves: seq<Move>, rebuild: Name, prod: Name)
    requires rebuild != prod && Started(s0.kernel, s0) && SerialRun(s0, moves, rebuild, prod)
    ensures SerialInv(s0.kernel, Run(s0, moves, rebuild, prod), rebuild, prod)
  {
    if moves != [] {
      SerialInvHolds(s0, moves[..|moves| - 1], rebuild, prod);
      hide SerialInv;
      StepKeepsSerialInv(s0.kernel, Run(s0, moves[..|moves| - 1], rebuild, prod), moves[|moves| - 1], rebuild, prod);
    }
  }

  const SERVING := State(map["p" := {"c"}], false, [Idle], {}, None)

  /** The one thread moves with that list. */
  function Fetching(x: Entry, command: bool): Move {
    Move(0, true, command, [x])
  }

  function Added1(x: Entry, left: set<Entry>): Load {
    Load([x], left, [Fate(true, true)])
  }

  function FirstUpdate(): seq<Move> {
    [Fetching("a", true)] + [Fetching("a", true)] + [Fetching("a", true)] + [Fetching("a", true)] + [Fetching("a", true)] +
    [Fetching("a", false)]
  }

  function SecondUpdate(): seq<Move> {
    [Fetching("d", false)] + [Fetching("d", true)] + [Fetching("d", true)] + [Fetching("d", true)] + [Fetching("d", true)]
  }

  const BETWEEN := State(map["p" := {"a"}, "r" := {"c"}], true, [Idle], {"a"}, Some(Added1("a", {})))

  lemma FirstUpdateSteps()
    ensures var m := Fetching("a", true);
      var s1 := SERVING.(pcs := [Creating]);
      var s2 := State(map["p" := {"c"}, "r" := {}], false, [Adding(Load(["a"], {}, []))], {"a"}, None);
      var s3 := State(map["p" := {"c"}, "r" := {"a"}], true, [Adding(Added1("a", {}))], {"a"}, None);
      var s4 := s3.(pcs := [Swapping(Added1("a", {}))]);
      var s5 := BETWEEN.(pcs := [Cleaning]);
      && Step(SERVING, m, "r", "p") == s1 && Step(s1, m, "r", "p") == s2 && Step(s2, m, "r", "p") == s3
      && Step(s3, m, "r", "p") == s4 && Step(s4, m, "r", "p") == s5
      && Step(s5, Fetching("a", false), "r", "p") == BETWEEN
  {
    var list: seq<Entry> := ["a"];
    assert (set x | x in list) == {"a"};
    var none: set<Entry> := {};
    assert none + {"a"} == {"a"};
    FirstFate();
  }

  lemma FirstFate()
    ensures [] + [Fate(true, true)] == [Fate(true, true)]
  {
  }

  lemma SecondUpdateSteps()
    ensures var m := Fetching("d", true);
      var s1 := BETWEEN.(pcs := [Creating]);
      var s2 := BETWEEN.(pcs := [Adding(Load(["d"], {"c"}, []))], fetched := {"a", "d"});
      var s3 := s2.(kernel := map["p" := {"a"}, "r" := {"c", "d"}], pcs := [Adding(Added1("d", {"c"}))]);
      var s4 := s3.(pcs := [Swapping(Added1("d", {"c"}))]);
      var s5 := State(map["p" := {"c", "d"}, "r" := {"a"}], true, [Cleaning], {"a", "d"}, Some(Added1("d", {"c"})));
      && Step(BETWEEN, Fetching("d", false), "r", "p") == s1 && Step(s1, m, "r", "p") == s2 && Step(s2, m, "r", "p") == s3
      && Step(s3, m, "r", "p") == s4 && Step(s4, m, "r", "p") == s5
  {
    var list: seq<Entry> := ["d"];
    assert (set x | x in list) == {"d"};
    assert {"c"} + {"d"} == {"c", "d"} && {"a"} + {"d"} == {"a", "d"};
    FirstFate();
  }

  lemma AfterFirstUpdate()
    ensures Unwiped(SERVING, FirstUpdate(), "r", "p") && Run(SERVING, FirstUpdate(), "r", "p") == BETWEEN
  {
    hide Run, Step, Fetching, Unwiped;
    RunStarts(SERVING, "r", "p");
    UnwipedStarts(SERVING, "r", "p");
    FirstUpdateSteps();
    FetchingParses();
    var a, f := Fetching("a", true), Fetching("a", false);
    assert [] + [a] == [a];
    UnwipedMore(SERVING, [], a, "r", "p");
    UnwipedMore(SERVING, [a], a, "r", "p");
    UnwipedMore(SERVING, [a] + [a], a, "r", "p");
    UnwipedMore(SERVING, [a] + [a] + [a], a, "r", "p");
    UnwipedMore(SERVING, [a] + [a] + [a] + [a], a, "r", "p");
    UnwipedMore(SERVING, [a] + [a] + [a] + [a] + [a], f, "r", "p");
  }

  /** One thread, two updates: the first cannot destroy what it swapped out, the second cannot either, creates
      over it all the same, and publishes the entry "c" that neither list holds. */
  lemma LeftOverIsPublished()
    ensures Started(SERVING.kernel, SERVING) && SerialRun(SERVING, FirstUpdate() + SecondUpdate(), "r", "p")
    ensures var s := Run(SERVING, FirstUpdate() + SecondUpdate(), "r", "p");
      && s.activated == Some(Added1("d", {"c"})) && s.fetched == {"a", "d"}
      && Content(s.kernel, "p") == Some({"c", "d"})
  {
    hide Run, Step, Fetching, SerialRun, Unwiped, FirstUpdate;
    AfterFirstUpdate();
    SecondUpdateSteps();
    FetchingParses();
    var first, g, d := FirstUpdate(), Fetching("d", false), Fetching("d", true);
    UnwipedMore(SERVING, first, g, "r", "p");
    UnwipedMore(SERVING, first + [g], d, "r", "p");
    UnwipedMore(SERVING, first + [g] + [d], d, "r", "p");
    UnwipedMore(SERVING, first + [g] + [d] + [d], d, "r", "p");
    UnwipedMore(SERVING, first + [g] + [d] + [d] + [d], d, "r", "p");
    assert first + [g] + [d] + [d] + [d] + [d] == first + SecondUpdate();
    OneThreadIsSerial(SERVING, first + SecondUpdate(), "r", "p");
  }

  lemma FetchingParses()
    ensures forall x, c :: Fetching(x, c).parse
  {
  }

  /** No destroy without a name goes through in the run. */
  ghost predicate Unwiped(s0: State, moves: seq<Move>, rebuild: Name, prod: Name)
    decreases |moves|
  {
    moves != [] ==>
      var front := moves[..|moves| - 1];
      Unwiped(s0, front, rebuild, prod) && !Wipes(Run(s0, front, rebuild, prod), moves[|moves| - 1])
  }

  lemma UnwipedStarts(s0: State, rebuild: Name, prod: Name)
    ensures Unwiped(s0, [], rebuild, prod)
  {
  }

  lemma UnwipedMore(s0: State, moves: seq<Move>, m: Move, rebuild: Name, prod: Name)
    requires Unwiped(s0, moves, rebuild, prod) && m.parse
    ensures Unwiped(s0, moves + [m], rebuild, prod)
    ensures Run(s0, moves + [m], rebuild, prod) == Step(Run(s0, moves, rebuild, prod), m, rebuild, prod)
  {
    assert (moves + [m])[..|moves|] == moves;
    var _ := RunOneMore(s0, moves, m, rebuild, prod);
  }

  lemma {:induction false} OneThreadIsSerial(s0: State, moves: seq<Move>, rebuild: Name, prod: Name)
    requires |s0.pcs| <= 1 && Unwiped(s0, moves, rebuild, prod)
    ensures SerialRun(s0, moves, rebuild, prod) && |Run(s0, moves, rebuild, prod).pcs| == |s0.pcs|
  {
    hide Step;
    if moves != [] {
      var front := moves[..|moves| - 1];
      OneThreadIsSerial(s0, front, rebuild, prod);
      PcsStay(Run(s0, front, rebuild, prod), moves[|moves| - 1], rebuild, prod);
    }
  }

  lemma PcsStay(s: State, m: Move, rebuild: Name, prod: Name)
    ensures |Step(s, m, rebuild, prod).pcs| == |s.pcs|
  {
  }

  // ---------------------------------------------------------------- two updates at once

  lemma RunOneMore(s0: State, moves: seq<Move>, m: Move, rebuild: Name, prod: Name) returns (s: State)
    ensures s == Run(s0, moves + [m], rebuild, prod) == Step(Run(s0, moves, rebuild, prod), m, rebuild, prod)
  {
    assert (moves + [m])[..|moves + [m]| - 1] == moves;
    s := Run(s0, moves + [m], rebuild, prod);
  }

  function Go(thread: nat): Move {
    Move(thread, true, true, ["b", "c"])
  }

  function TwoIdle(): State {
    State(map["p" := {"a"}], false, [Idle, Idle], {}, None)
  }

  /** The first thread creates the rebuild set and adds "b"; the second destroys that set. */
  function FirstHalf(): seq<Move> {
    [Go(0)] + [Go(0)] + [Go(0)] + [Go(1)]
  }

  /** The second thread creates the set anew; the first adds "c" to it and swaps. */
  function SecondHalf(): seq<Move> {
    [Go(1)] + [Go(0)] + [Go(0)] + [Go(0)]
  }

  function Loading(n: nat): Load {
    Load(["b", "c"], {}, seq(n, _ => Fate(true, true)))
  }

  lemma AfterCreate()
    ensures Run(TwoIdle(), [Go(0)] + [Go(0)], "r", "p") ==
      State(map["p" := {"a"}, "r" := {}], false, [Adding(Loading(0)), Idle], {"b", "c"}, None)
  {
    var s0 := TwoIdle();
    assert Run(s0, [], "r", "p") == s0;
    assert (set x | x in ["b", "c"]) == {"b", "c"};
    hide Run;
    var s1 := RunOneMore(s0, [], Go(0), "r", "p");
    assert [] + [Go(0)] == [Go(0)];
    assert s1.pcs == [Creating, Idle] && s1.kernel == s0.kernel;
    var s2 := RunOneMore(s0, [Go(0)], Go(0), "r", "p");
    LoadingSteps();
    assert s2.pcs == [Adding(Loading(0)), Idle];
  }

  lemma AfterFirstHalf()
    ensures Run(TwoIdle(), FirstHalf(), "r", "p") == State(map["p" := {"a"}], true, [Adding(Loading(1)), Creating], {"b", "c"}, None)
  {
    hide Run, Loading;
    AfterCreate();
    var s0 := TwoIdle();
    var nothing: set<Entry> := {};
    assert nothing + {"b"} == {"b"};
    LoadingSteps();
    var s3 := RunOneMore(s0, [Go(0)] + [Go(0)], Go(0), "r", "p");
    assert s3.pcs == [Adding(Loading(1)), Idle] && s3.kernel == map["p" := {"a"}, "r" := {"b"}];
    var s4 := RunOneMore(s0, [Go(0)] + [Go(0)] + [Go(0)], Go(1), "r", "p");
    assert s4.pcs == [Adding(Loading(1)), Creating];
  }

  lemma AfterSecondAdd()
    ensures Run(TwoIdle(), FirstHalf() + [Go(1)] + [Go(0)], "r", "p") ==
      State(map["p" := {"a"}, "r" := {"c"}], true, [Adding(Loading(2)), Adding(Loading(0))], {"b", "c"}, None)
  {
    hide Run, FirstHalf, Loading;
    AfterFirstHalf();
    var s0, ms := TwoIdle(), FirstHalf();
    var nothing: set<Entry> := {};
    assert nothing + {"c"} == {"c"};
    LoadingSteps();
    assert (set x | x in ["b", "c"]) == {"b", "c"} && {"b", "c"} + {"b", "c"} == {"b", "c"};
    var s5 := RunOneMore(s0, ms, Go(1), "r", "p");
    assert s5.kernel == map["p" := {"a"}, "r" := {}] && s5.pcs == [Adding(Loading(1)), Adding(Loading(0))];
    var s6 := RunOneMore(s0, ms + [Go(1)], Go(0), "r", "p");
    assert s6.kernel == map["p" := {"a"}, "r" := {"c"}] && s6.pcs == [Adding(Loading(2)), Adding(Loading(0))];
  }

  /** The promise of serialised updates fails across threads: after this run, in which no command went
      wrong and both threads fetched the list b, c, the latest activated load is the whole list and the
      production set holds c alone. */
  lemma InterleavingPublishesPart()
    ensures Started(TwoIdle().kernel, TwoIdle())
    ensures var s := Run(TwoIdle(), FirstHalf() + SecondHalf(), "r", "p");
      s.fetched == {"b", "c"} && s.activated == Some(Loading(2)) && Content(s.kernel, "p") == Some({"c"})
  {
    hide Run, FirstHalf, Loading;
    AfterSecondAdd();
    LoadingSteps();
    var s0, ms := TwoIdle(), FirstHalf() + [Go(1)] + [Go(0)];
    var s7 := RunOneMore(s0, ms, Go(0), "r", "p");
    var s8 := RunOneMore(s0, ms + [Go(0)], Go(0), "r", "p");
    assert ms + [Go(0)] + [Go(0)] == FirstHalf() + SecondHalf();
  }

  lemma LoadingSteps()
    ensures Loading(0) == Load(["b", "c"], {}, [])
    ensures Loading(1) == Load(["b", "c"], {}, [Fate(true, true)])
    ensures Loading(2) == Load(["b", "c"], {}, [Fate(true, true), Fate(true, true)])
    ensures Loading(0).fates + [Fate(true, true)] == Loading(1).fates
    ensures Loading(1).fates + [Fate(true, true)] == Loading(2).fates
  {
  }

  function Lone(thread: nat): Move {
    Move(thread, true, true, ["b"])
  }

  /** A thread that has added its one entry. */
  const ADDED := Load(["b"], {}, [Fate(true, true)])

  /** From any start: the first thread creates the set and adds its entry. */
  lemma LoneAdds(s: State, rebuild: Name, prod: Name)
    requires rebuild != prod && |s.pcs| >= 2 && s.pcs[0] == s.pcs[1] == Idle && !s.exist
    ensures var s1 := Step(s, Lone(0), rebuild, prod);
      var s2 := Step(s1, Lone(0), rebuild, prod);
      var s3 := Step(s2, Lone(0), rebuild, prod);
      && s3.pcs == s.pcs[0 := Adding(ADDED)] && rebuild in s3.kernel && (prod in s3.kernel <==> prod in s.kernel)
  {
    var s1 := Step(s, Lone(0), rebuild, prod);
    assert s1.pcs == s.pcs[0 := Creating] && rebuild !in s1.kernel;
    var s2 := Step(s1, Lone(0), rebuild, prod);
    assert s2.pcs == s.pcs[0 := Adding(Load(["b"], {}, []))] && s2.kernel == s1.kernel[rebuild := {}];
    FirstFate();
    var s3 := Step(s2, Lone(0), rebuild, prod);
    assert s3.pcs == s2.pcs[0 := Adding(ADDED)];
  }

  /** The second thread replaces the set. */
  lemma OtherReplaces(s: State, rebuild: Name, prod: Name)
    requires rebuild != prod && |s.pcs| >= 2 && s.pcs[0] == Adding(ADDED) && s.pcs[1] == Idle && rebuild in s.kernel
    ensures var s1 := Step(s, Lone(1), rebuild, prod);
      var s2 := Step(s1, Lone(1), rebuild, prod);
      s2.pcs[0] == Adding(ADDED) && |s2.pcs| == |s.pcs| && Content(s2.kernel, rebuild) == Some({}) &&
      (prod in s2.kernel <==> prod in s.kernel)
  {
    var s1 := Step(s, Lone(1), rebuild, prod);
    assert s1.pcs[1] == Creating && s1.pcs[0] == s.pcs[0] && rebuild !in s1.kernel;
  }

  /** The first thread publishes that. */
  lemma LonePublishes(s: State, rebuild: Name, prod: Name)
    requires rebuild != prod && |s.pcs| >= 2 && s.pcs[0] == Adding(ADDED) && Content(s.kernel, rebuild) == Some({})
    ensures var s1 := Step(s, Lone(0), rebuild, prod);
      var s2 := Step(s1, Lone(0), rebuild, prod);
      var s3 := Step(s2, Lone(0), rebuild, prod);
      var t := if prod in s.kernel then s2 else s3;
      t.activated == Some(ADDED) && Content(t.kernel, prod) == Some({})
  {
    var s1 := Step(s, Lone(0), rebuild, prod);
    assert s1.kernel == s.kernel && s1.pcs[0] == Swapping(ADDED);
    var s2 := Step(s1, Lone(0), rebuild, prod);
    if prod !in s.kernel {
      assert s2.kernel == s.kernel && s2.pcs[0] == Renaming(ADDED);
    }
  }

  /** From any start with two threads or more there is a run, all commands succeeding as far as they can, after
      which the production set is not what the latest activated load built. */
  lemma TwoThreadsFail(s0: State, rebuild: Name, prod: Name) returns (moves: seq<Move>)
    requires rebuild != prod && Started(s0.kernel, s0) && |s0.pcs| >= 2
    ensures Unwiped(s0, moves, rebuild, prod)
    ensures Content(Run(s0, moves, rebuild, prod).kernel, prod) !=
      Expected(s0.kernel, Run(s0, moves, rebuild, prod), prod)
  {
    hide Run, Step, Lone, Unwiped;
    LoneParses();
    RunStarts(s0, rebuild, prod);
    UnwipedStarts(s0, rebuild, prod);
    var a, b := Lone(0), Lone(1);
    LoneAdds(s0, rebuild, prod);
    UnwipedMore(s0, [], a, rebuild, prod);
    UnwipedMore(s0, [] + [a], a, rebuild, prod);
    UnwipedMore(s0, [] + [a] + [a], a, rebuild, prod);
    moves := [] + [a] + [a] + [a];
    OtherReplaces(Run(s0, moves, rebuild, prod), rebuild, prod);
    UnwipedMore(s0, moves, b, rebuild, prod);
    UnwipedMore(s0, moves + [b], b, rebuild, prod);
    moves := moves + [b] + [b];
    LonePublishes(Run(s0, moves, rebuild, prod), rebuild, prod);
    UnwipedMore(s0, moves, a, rebuild, prod);
    UnwipedMore(s0, moves + [a], a, rebuild, prod);
    UnwipedMore(s0, moves + [a] + [a], a, rebuild, prod);
    AddedBuilds();
    moves := if prod in s0.kernel then moves + [a] + [a] else moves + [a] + [a] + [a];
  }

  lemma LoneParses()
    ensures forall t: nat :: Lone(t).parse
  {
  }

  lemma AddedBuilds()
    ensures BuiltBy(ADDED) != {}
  {
    assert ADDED.list[0] == "b" && FateAt(ADDED.fates, 0).parse;
    assert "b" in LoadedOf(ADDED);
  }

  /** Every run without a destroy that names no set leaves the production set as the latest activated load
      built it exactly when there are not two threads. */
  lemma ExpectedIffOneThread(s0: State, rebuild: Name, prod: Name)
    requires rebuild != prod && Started(s0.kernel, s0)
    ensures (forall moves :: Unwiped(s0, moves, rebuild, prod) ==>
               Content(Run(s0, moves, rebuild, prod).kernel, prod) ==
                 Expected(s0.kernel, Run(s0, moves, rebuild, prod), prod)) <==> |s0.pcs| <= 1
  {
    if |s0.pcs| <= 1 {
      forall moves | Unwiped(s0, moves, rebuild, prod)
        ensures Content(Run(s0, moves, rebuild, prod).kernel, prod) ==
          Expected(s0.kernel, Run(s0, moves, rebuild, prod), prod)
      {
        OneThreadIsSerial(s0, moves, rebuild, prod);
        SerialRunsPublishWhole(s0, moves, rebuild, prod);
      }
    } else {
      var moves := TwoThreadsFail(s0, rebuild, prod);
    }
  }

  // ---------------------------------------------------------------- a thread alone

  lemma {:induction false} RunSplit(s: State, first: seq<Move>, more: seq<Move>, rebuild: Name, prod: Name)
    ensures Run(s, first + more, rebuild, prod) == Run(Run(s, first, rebuild, prod), more, rebuild, prod)
    decreases |more|
  {
    hide Step;
    if more == [] {
      assert first + more == first;
    } else {
      var n := |more| - 1;
      RunSplit(s, first, more[..n], rebuild, prod);
      assert (first + more)[..|first + more| - 1] == first + more[..n];
    }
  }

  /** The entries of a list whose own add is parsed and carried out, by the moves that make the adds. */
  function Through(list: seq<Entry>, adds: seq<Move>): set<Entry> {
    set k | 0 <= k < |list| && k < |adds| && list[k] != "" && adds[k].parse && adds[k].command :: list[k]
  }

  predicate Of(moves: seq<Move>, thread: nat) {
    forall m :: m in moves ==> m.thread == thread
  }

  /** One turn of the fill loop, whatever becomes of the add: the thread goes on with the next entry. */
  lemma AddGoesOn(s: State, m: Move, load: Load, rebuild: Name, prod: Name)
    requires m.thread < |s.pcs| && s.pcs[m.thread] == Adding(load) && |load.fates| < |load.list| && rebuild in s.kernel
    ensures var s', x := Step(s, m, rebuild, prod), load.list[|load.fates|];
      && s'.pcs == s.pcs[m.thread := Adding(load.(fates := load.fates + [Fate(m.parse, x == "" || (m.parse && m.command))]))]
      && Content(s'.kernel, rebuild) == Some(s.kernel[rebuild] + if x != "" && m.parse && m.command then {x} else {})
      && OthersSame(s.kernel, s'.kernel, {rebuild}) && s'.activated == s.activated
      && s'.exist == (s.exist || (x != "" && m.parse))
  {
    SetAssociates(s.kernel[rebuild], {}, {});
  }

  lemma ThroughMore(list: seq<Entry>, adds: seq<Move>, m: Move)
    requires |adds| < |list|
    ensures Through(list, adds + [m]) ==
      Through(list, adds) + if list[|adds|] != "" && m.parse && m.command then {list[|adds|]} else {}
  {
    var all := adds + [m];
    assert all[|adds|] == m;
    assert forall k :: 0 <= k < |adds| ==> all[k] == adds[k];
  }

  /** The fill loop of a thread alone: the rebuild set gets the entries whose own add goes through. */
  lemma {:induction false} AddsAlone(s: State, thread: nat, list: seq<Entry>, left: set<Entry>, adds: seq<Move>,
                                     rebuild: Name, prod: Name)
    requires thread < |s.pcs| && s.pcs[thread] == Adding(Load(list, left, [])) && Content(s.kernel, rebuild) == Some(left)
    requires |adds| <= |list| && Of(adds, thread)
    ensures var t := Run(s, adds, rebuild, prod);
      && thread < |t.pcs| && t.pcs == s.pcs[thread := t.pcs[thread]]
      && t.pcs[thread].Adding? && t.pcs[thread].load.list == list && t.pcs[thread].load.left == left
      && |t.pcs[thread].load.fates| == |adds|
      && Content(t.kernel, rebuild) == Some(left + Through(list, adds))
      && OthersSame(s.kernel, t.kernel, {rebuild}) && t.activated == s.activated
  {
    hide Step, Through;
    if adds == [] {
      NoneThrough(list);
      SetAssociates(left, {}, {});
      assert s.pcs == s.pcs[thread := s.pcs[thread]];
    } else {
      var front, m := adds[..|adds| - 1], adds[|adds| - 1];
      assert adds == front + [m];
      AddsAlone(s, thread, list, left, front, rebuild, prod);
      var t := Run(s, front, rebuild, prod);
      AddGoesOn(t, m, t.pcs[thread].load, rebuild, prod);
      ThroughMore(list, front, m);
      var x := list[|front|];
      SetAssociates(left, Through(list, front), if x != "" && m.parse && m.command then {x} else {});
    }
  }

  lemma NoneThrough(list: seq<Entry>)
    ensures Through(list, []) == {}
  {
  }

  /** The first two commands of an update whose create succeeds. */
  lemma BeginsAlone(s: State, a: Move, b: Move, rebuild: Name, prod: Name)
    requires a.thread == b.thread < |s.pcs| && s.pcs[a.thread] == Idle && b.parse && b.command
    requires s.exist || rebuild !in s.kernel || (a.parse && a.command)
    ensures var t, left := Step(Step(s, a, rebuild, prod), b, rebuild, prod), LeftOver(s.kernel, rebuild, Fate(a.parse, a.command));
      && t.pcs == s.pcs[a.thread := Adding(Load(b.list, left, []))]
      && Content(t.kernel, rebuild) == Some(left) && OthersSame(s.kernel, t.kernel, {rebuild}) && t.activated == s.activated
  {
    var t1 := Step(s, a, rebuild, prod);
    assert t1.pcs == s.pcs[a.thread := Creating];
    var t2 := Step(t1, b, rebuild, prod);
    assert t2.pcs[a.thread].Adding?;
    assert t2.pcs == s.pcs[a.thread := t2.pcs[a.thread]];
  }

  /** A create that fails ends the update; every set but the one that the first destroy may remove stays. */
  lemma FailedCreateEnds(s: State, a: Move, b: Move, rebuild: Name, prod: Name)
    requires a.thread == b.thread < |s.pcs| && s.pcs[a.thread] == Idle
    requires !(b.parse && b.command && (s.exist || rebuild !in s.kernel || (a.parse && a.command)))
    ensures var t := Step(Step(s, a, rebuild, prod), b, rebuild, prod);
      && t.pcs == s.pcs && t.activated == s.activated && t.fetched == s.fetched
      && t.kernel == if a.parse && a.command then s.kernel - {rebuild} else s.kernel
  {
    var t1 := Step(s, a, rebuild, prod);
    assert t1.pcs == s.pcs[a.thread := Creating];
    assert t1.pcs[a.thread := Idle] == s.pcs;
    assert s.kernel - {rebuild} == s.kernel || rebuild in s.kernel;
  }

  /** The last three moves of an update whose activation goes through: the end of the list is met, and then
      swap and destroy, or swap (which fails, as there is no production set) and rename. */
  lemma PublishesAlone(s: State, a: Move, b: Move, c: Move, load: Load, rebuild: Name, prod: Name)
    requires rebuild != prod && rebuild in s.kernel && |load.fates| == |load.list|
    requires a.thread == b.thread == c.thread < |s.pcs| && s.pcs[a.thread] == Adding(load)
    requires b.parse && b.command && (if prod in s.kernel then c.parse || !c.command else c.parse && c.command)
    ensures var t := Step(Step(Step(s, a, rebuild, prod), b, rebuild, prod), c, rebuild, prod);
      && t.pcs == s.pcs[a.thread := Idle] && t.activated == Some(load)
      && Content(t.kernel, prod) == Content(s.kernel, rebuild)
      && Content(t.kernel, rebuild) == (if c.command then None else Content(s.kernel, prod))
      && OthersSame(s.kernel, t.kernel, {rebuild, prod})
  {
    var t1 := Step(s, a, rebuild, prod);
    assert t1.kernel == s.kernel && t1.pcs == s.pcs[a.thread := Swapping(load)];
    var t2 := Step(t1, b, rebuild, prod);
    assert t2.pcs == s.pcs[a.thread := if prod in s.kernel then Cleaning else Renaming(load)];
    assert prod !in s.kernel ==> t2.kernel == s.kernel;
    var t3 := Step(t2, c, rebuild, prod);
    assert t3.pcs == s.pcs[a.thread := Idle];
  }

  /** The moves up to the end of the list. */
  lemma FillsAlone(s: State, a: Move, b: Move, adds: seq<Move>, rebuild: Name, prod: Name)
    requires rebuild != prod && a.thread == b.thread < |s.pcs| && s.pcs[a.thread] == Idle && Of(adds, a.thread)
    requires |adds| == |b.list| && b.parse && b.command
    requires s.exist || rebuild !in s.kernel || (a.parse && a.command)
    ensures var t, left := Run(s, [a, b] + adds, rebuild, prod), LeftOver(s.kernel, rebuild, Fate(a.parse, a.command));
      && a.thread < |t.pcs| && t.pcs == s.pcs[a.thread := t.pcs[a.thread]]
      && t.pcs[a.thread].Adding? && t.pcs[a.thread].load.list == b.list
      && |t.pcs[a.thread].load.fates| == |b.list|
      && Content(t.kernel, rebuild) == Some(left + Through(b.list, adds))
      && OthersSame(s.kernel, t.kernel, {rebuild}) && (prod in t.kernel <==> prod in s.kernel)
  {
    hide Step, Run, Through, LeftOver, OthersSame;
    var left := LeftOver(s.kernel, rebuild, Fate(a.parse, a.command));
    BeginsAlone(s, a, b, rebuild, prod);
    var s2 := Step(Step(s, a, rebuild, prod), b, rebuild, prod);
    AddsAlone(s2, a.thread, b.list, left, adds, rebuild, prod);
    var s3 := Run(s2, adds, rebuild, prod);
    SameElsewhere(s.kernel, s2.kernel, s3.kernel, rebuild, prod);
    RunTwo(s, a, b, rebuild, prod);
    RunSplit(s, [a, b], adds, rebuild, prod);
    assert s.pcs[a.thread := s2.pcs[a.thread]][a.thread := s3.pcs[a.thread]] == s.pcs[a.thread := s3.pcs[a.thread]];
  }

  /** A thread alone: destroy, create, one move for each entry of the list, and three more.  However the adds
      go, if the create and the activation go through the production set is what was left over and the
      entries whose own add went through, and the thread is ready for the next update. */
  lemma AloneCompletes(s: State, moves: seq<Move>, thread: nat, rebuild: Name, prod: Name)
    requires rebuild != prod && thread < |s.pcs| && s.pcs[thread] == Idle && Of(moves, thread)
    requires |moves| >= 5 && |moves| == |moves[1].list| + 5 && moves[1].parse && moves[1].command
    requires s.exist || rebuild !in s.kernel || (moves[0].parse && moves[0].command)
    requires moves[|moves| - 2].parse && moves[|moves| - 2].command
    requires var last := moves[|moves| - 1];
      if prod in s.kernel then last.parse || !last.command else last.parse && last.command
    ensures var t, list, adds := Run(s, moves, rebuild, prod), moves[1].list, moves[2..|moves| - 3];
      && t.pcs == s.pcs
      && t.activated.Some? && t.activated.value.list == list
      && Content(t.kernel, prod) ==
           Some(LeftOver(s.kernel, rebuild, Fate(moves[0].parse, moves[0].command)) + Through(list, adds))
      && (moves[|moves| - 1].command ==> rebuild !in t.kernel)
      && OthersSame(s.kernel, t.kernel, {rebuild, prod})
  {
    hide Step, Run, Through, LeftOver, OthersSame;
    var n := |moves|;
    var adds, first, last := moves[2..n - 3], moves[..n - 3], [moves[n - 3], moves[n - 2], moves[n - 1]];
    FillsAlone(s, moves[0], moves[1], adds, rebuild, prod);
    assert [moves[0], moves[1]] + adds == first && first + last == moves;
    var s3 := Run(s, first, rebuild, prod);
    PublishesAlone(s3, moves[n - 3], moves[n - 2], moves[n - 1], s3.pcs[thread].load, rebuild, prod);
    RunThree(s3, moves[n - 3], moves[n - 2], moves[n - 1], rebuild, prod);
    RunSplit(s, first, last, rebuild, prod);
    SameEverywhereElse(s.kernel, s3.kernel, Run(s, moves, rebuild, prod).kernel, rebuild, prod);
    assert s.pcs[thread := s3.pcs[thread]][thread := Idle] == s.pcs;
  }

  lemma SameElsewhere(k: Kernel, k': Kernel, k'': Kernel, rebuild: Name, prod: Name)
    requires rebuild != prod && OthersSame(k, k', {rebuild}) && OthersSame(k', k'', {rebuild})
    ensures OthersSame(k, k'', {rebuild}) && (prod in k'' <==> prod in k)
  {
    assert Content(k, prod) == Content(k', prod) == Content(k'', prod);
  }

  lemma SameEverywhereElse(k: Kernel, k': Kernel, k'': Kernel, rebuild: Name, prod: Name)
    requires OthersSame(k, k', {rebuild}) && OthersSame(k', k'', {rebuild, prod})
    ensures OthersSame(k, k'', {rebuild, prod})
  {
  }

  lemma RunTwo(s: State, a: Move, b: Move, rebuild: Name, prod: Name)
    ensures Run(s, [a, b], rebuild, prod) == Step(Step(s, a, rebuild, prod), b, rebuild, prod)
  {
    hide Step;
    assert [a, b][..1] == [a] && [a][..0] == [];
    assert Run(s, [], rebuild, prod) == s;
    assert Run(s, [a], rebuild, prod) == Step(s, a, rebuild, prod);
  }

  lemma RunThree(s: State, a: Move, b: Move, c: Move, rebuild: Name, prod: Name)
    ensures Run(s, [a, b, c], rebuild, prod) == Step(Step(Step(s, a, rebuild, prod), b, rebuild, prod), c, rebuild, prod)
  {
    hide Step;
    assert [a, b, c][..2] == [a, b];
    RunTwo(s, a, b, rebuild, prod);
  }

  /** A swap whose names do not parse goes on to the destroy, and any other failed swap to the rename; neither
      changes a set. */
  lemma FailedSwap(s: State, m: Move, load: Load, rebuild: Name, prod: Name)
    requires m.thread < |s.pcs| && s.pcs[m.thread] == Swapping(load)
    requires !(m.parse && m.command && rebuild in s.kernel && prod in s.kernel)
    ensures var t := Step(s, m, rebuild, prod);
      t.kernel == s.kernel && t.activated == s.activated && t.pcs[m.thread] == if m.parse then Renaming(load) else Cleaning
  {
  }

  /** A failed rename goes on to the destroy and changes no set. */
  lemma FailedRename(s: State, m: Move, load: Load, rebuild: Name, prod: Name)
    requires m.thread < |s.pcs| && s.pcs[m.thread] == Renaming(load)
    requires !(m.parse && m.command && rebuild in s.kernel && prod !in s.kernel)
    ensures var t := Step(s, m, rebuild, prod);
      t.kernel == s.kernel && t.activated == s.activated && t.pcs[m.thread] == Cleaning
  {
  }

  /** A failed activation leaves the production set as it was and still issues the destroy, which removes the
      rebuild set when it is parsed and carried out. */
  lemma FailedActivationCleans(s: State, a: Move, b: Move, c: Move, load: Load, rebuild: Name, prod: Name)
    requires rebuild != prod && a.thread == b.thread == c.thread < |s.pcs| && s.pcs[a.thread] == Swapping(load)
    requires !(a.parse && a.command && rebuild in s.kernel && prod in s.kernel)
    requires !(b.parse && b.command && rebuild in s.kernel && prod !in s.kernel) && c.parse
    ensures var s1 := Step(s, a, rebuild, prod);
      var s2 := if a.parse then Step(s1, b, rebuild, prod) else s1;
      var t := Step(s2, c, rebuild, prod);
      && t.pcs[a.thread] == Idle && t.activated == s.activated
      && Content(t.kernel, prod) == Content(s.kernel, prod) && OthersSame(s.kernel, t.kernel, {rebuild})
      && (c.command ==> rebuild !in t.kernel)
  {
    FailedSwap(s, a, load, rebuild, prod);
    var s1 := Step(s, a, rebuild, prod);
    if a.parse {
      FailedRename(s1, b, load, rebuild, prod);
    }
    var s2 := if a.parse then Step(s1, b, rebuild, prod) else s1;
    assert s2.kernel == s.kernel && s2.pcs[a.thread] == Cleaning;
  }
}
