/** Loading the block list into the kernel (firewall-daemon/ipset_helper.c, session variant, and
    firewall_notify in iptracking-firewalld.c): the kernel is a map from set name to entries, and each
    command either takes effect or changes nothing. */
module Ipset {
  import opened Options
  import opened BlocklistEnum

  type Name = string
  type Entry = string
  type Kernel = map<Name, set<Entry>>

  datatype Command =
    | CmdCreate(name: Name, exist: bool) // with the session's EXIST option an existing set will do
    | CmdAdd(name: Name, entry: Entry)
    | CmdSwap(name: Name, other: Name)
    | CmdRename(name: Name, other: Name)
    | CmdDestroy(name: Name)
    | CmdDestroyAll                     // a destroy that names no set, which ipset takes to mean every set

  /** Whether the kernel can carry a command out. */
  predicate Possible(k: Kernel, c: Command) {
    match c
    case CmdCreate(n, exist) => exist || n !in k
    case CmdAdd(n, e) => n in k
    case CmdSwap(a, b) => a in k && b in k
    case CmdRename(a, b) => a in k && b !in k
    case CmdDestroy(n) => n in k
    case CmdDestroyAll => true
  }

  function Effect(k: Kernel, c: Command): Kernel
    requires Possible(k, c)
  {
    match c
    case CmdCreate(n, _) => if n in k then k else k[n := {}]
    case CmdAdd(n, e) => k[n := k[n] + {e}]
    case CmdSwap(a, b) => k[a := k[b]][b := k[a]]
    case CmdRename(a, b) => (k - {a})[b := k[a]]
    case CmdDestroy(n) => k - {n}
    case CmdDestroyAll => map[]
  }

  /** A command may also fail for reasons of its own: `fate` is false then. */
  predicate Succeeds(k: Kernel, c: Command, fate: bool) {
    fate && Possible(k, c)
  }

  function Do(k: Kernel, c: Command, fate: bool): Kernel {
    if Succeeds(k, c, fate) then Effect(k, c) else k
  }

  /** The content of a set, if it exists. */
  function Content(k: Kernel, n: Name): Option<set<Entry>> {
    if n in k then Some(k[n]) else None
  }

  /** How the parse steps and the command of one helper call go. */
  datatype Fate = Fate(parse: bool, command: bool)

  /** How activation goes: two names are parsed for the swap, two again for the rename, and one for the
      final destroy. */
  datatype ActivateFate = ActivateFate(parse1: bool, parse2: bool, swap: bool,
                                       parse3: bool, parse4: bool, rename: bool,
                                       parse5: bool, destroy: bool)

  /** Whether activation renames the rebuilt set, given whether the production set is absent. */
  predicate Renames(absent: bool, f: ActivateFate) {
    absent && f.parse1 && f.parse2 && f.parse3 && f.parse4 && f.rename
  }

  /** Whether the final destroy goes through without a name: the code issues it even when the parse failed. */
  predicate Wipes(absent: bool, f: ActivateFate) {
    !Renames(absent, f) && !f.parse5 && f.destroy
  }

  function Added(entry: Entry, fate: Fate): set<Entry> {
    if entry != "" && fate.parse && fate.command then {entry} else {}
  }

  /** What the rebuilt set holds: the nonempty entries whose add went through. */
  function Loaded(entries: seq<Entry>, fates: seq<Fate>): set<Entry> {
    set i | 0 <= i < |entries| && entries[i] != "" && FateAt(fates, i).parse && FateAt(fates, i).command :: entries[i]
  }

  /** The fate of the i-th fetched entry; entries beyond the listed fates are added without trouble. */
  function FateAt(fates: seq<Fate>, i: int): Fate {
    if 0 <= i < |fates| then fates[i] else Fate(true, true)
  }

  /** Some nonempty entry was parsed, so that the EXIST option was set for its add. */
  predicate SomeParsed(entries: seq<Entry>, fates: seq<Fate>) {
    exists i :: 0 <= i < |entries| && entries[i] != "" && FateAt(fates, i).parse
  }

  /** What is still in the rebuild set when the create that follows a first destroy finds it. */
  function LeftOver(k: Kernel, rebuild: Name, destroy: Fate): set<Entry> {
    if rebuild in k && !(destroy.parse && destroy.command) then k[rebuild] else {}
  }

  /** An ipset session with its EXIST option, which each add sets and nothing clears; the kernel it talks
      to; and every kernel state its commands led to. */
  class Helper {
    var kernel: Kernel
    var exist: bool
    ghost var history: seq<Kernel>

    ghost predicate Valid()
      reads this
    {
      history != [] && history[|history| - 1] == kernel
    }

    constructor (kernel: Kernel)
      ensures Valid() && this.kernel == kernel && !exist && history == [kernel]
    {
      this.kernel := kernel;
      exist := false;
      history := [kernel];
    }

    method Run(c: Command, fate: bool) returns (ok: bool)
      modifies this`kernel, this`history
      ensures ok <==> Succeeds(old(kernel), c, fate)
      ensures kernel == Do(old(kernel), c, fate)
      ensures history == old(history) + [kernel]
    {
      ok := fate && Possible(kernel, c);
      if ok {
        kernel := Effect(kernel, c);
      }
      history := history + [kernel];
    }

    /** One parse-and-command helper call: ipset_helper_create, _add or _destroy. */
    method Call(c: Command, fate: Fate) returns (ok: bool)
      requires Valid()
      modifies this`kernel, this`history
      ensures Valid()
      ensures ok <==> fate.parse && Succeeds(old(kernel), c, fate.command)
      ensures kernel == Do(old(kernel), c, fate.parse && fate.command)
      ensures old(history) <= history && |history| <= |old(history)| + 1
      ensures forall i :: |old(history)| <= i < |history| ==> history[i] == kernel
    {
      ok := false;
      if fate.parse {
        ok := Run(c, fate.command);
      }
    }

    /** ipset_helper_activate: swap the rebuilt set with the production set, else rename it, and destroy
        what is left under the rebuild name unless the rename took it. */
    method Activate(rebuild: Name, prod: Name, f: ActivateFate) returns (ok: bool)
      requires Valid() && rebuild != prod
      modifies this`kernel, this`history
      ensures Valid()
      ensures rebuild !in old(kernel) ==> !ok
      ensures rebuild in old(kernel) ==>
        (ok <==> f.parse1 && f.parse2 &&
                 (if prod in old(kernel) then f.swap else f.parse3 && f.parse4 && f.rename))
      ensures var wipes := Wipes(rebuild in old(kernel) && prod !in old(kernel), f);
        var target := Content(old(kernel), if ok then rebuild else prod);
        && (wipes ==> kernel == map[] && |history| > |old(history)|)
        && (!wipes ==> Content(kernel, prod) == target)
        && (!wipes ==> OthersSame(old(kernel), kernel, {rebuild, prod}))
        && (!wipes && f.destroy ==> rebuild !in kernel)
        && Switches(history, |old(history)|, if wipes then |history| - 1 else |history|, prod,
                    Content(old(kernel), prod), target)
      ensures old(history) <= history
    {
      hide Switches;
      var shouldDestroy;
      ok, shouldDestroy := SwapOrRename(rebuild, prod, f);
      if shouldDestroy {
        // the result of the parse is overwritten, not tested
        ghost var h := history;
        var _ := Run(if f.parse5 then CmdDestroy(rebuild) else CmdDestroyAll, f.destroy);
        var wipes := !f.parse5 && f.destroy;
        SwitchesOneMore(h, history, |old(history)|, prod, Content(old(kernel), prod),
                        Content(old(kernel), if ok then rebuild else prod), !wipes);
      }
    }

    /** The first part of activation: swap, else rename. */
    method SwapOrRename(rebuild: Name, prod: Name, f: ActivateFate) returns (ok: bool, shouldDestroy: bool)
      requires Valid() && rebuild != prod
      modifies this`kernel, this`history
      ensures Valid()
      ensures rebuild !in old(kernel) ==> !ok
      ensures rebuild in old(kernel) ==>
        (ok <==> f.parse1 && f.parse2 &&
                 (if prod in old(kernel) then f.swap else f.parse3 && f.parse4 && f.rename))
      ensures !shouldDestroy <==> Renames(rebuild in old(kernel) && prod !in old(kernel), f)
      ensures !shouldDestroy ==> rebuild !in kernel
      ensures Content(kernel, prod) == Content(old(kernel), if ok then rebuild else prod)
      ensures OthersSame(old(kernel), kernel, {rebuild, prod})
      ensures Switches(history, |old(history)|, |history|, prod,
                       Content(old(kernel), prod), Content(old(kernel), if ok then rebuild else prod))
      ensures old(history) <= history
    {
      ok, shouldDestroy := false, true;
      if f.parse1 && f.parse2 {
        ok := Run(CmdSwap(rebuild, prod), f.swap);
        if !ok && f.parse3 && f.parse4 {
          ok := Run(CmdRename(rebuild, prod), f.rename);
          if ok {
            shouldDestroy := false;
          }
        }
      }
    }

    /** One turn of the fill loop: a nonempty entry is added, and a failure is only logged.  Once the
        entry is parsed the EXIST option is set. */
    method AddEntry(rebuild: Name, entry: Entry, fate: Fate)
      requires Valid() && rebuild in kernel
      modifies this
      ensures Valid()
      ensures exist == (old(exist) || (entry != "" && fate.parse))
      ensures Content(kernel, rebuild) == Some(old(kernel)[rebuild] + Added(entry, fate))
      ensures OthersSame(old(kernel), kernel, {rebuild})
      ensures old(history) <= history
      ensures forall i :: |old(history)| <= i < |history| ==> OthersSame(old(kernel), history[i], {rebuild})
    {
      SetAssociates(kernel[rebuild], {}, {});
      if entry != "" {
        exist := exist || fate.parse;
        var _ := Call(CmdAdd(rebuild, entry), fate);
      }
    }

    /** The fill loop of firewall_notify and of the timer thread: add each nonempty entry, carrying on
        when an add fails. */
    method Populate(e: Enum, rebuild: Name, fates: seq<Fate>)
      requires Valid() && e.Valid() && rebuild in kernel
      modifies this, e.Footprint()
      ensures Valid()
      ensures exist == (old(exist) || SomeParsed(UntilNull(old(e.Pending())), fates))
      ensures Content(kernel, rebuild) == Some(old(kernel)[rebuild] + Loaded(UntilNull(old(e.Pending())), fates))
      ensures OthersSame(old(kernel), kernel, {rebuild})
      ensures old(history) <= history
      ensures forall i :: |old(history)| <= i < |history| ==> OthersSame(old(kernel), history[i], {rebuild})
    {
      hide Loaded, UntilNull, Enum.Pending, Enum.Valid, Filling, Taken, OthersSame, Content, Added, FateAt, SomeParsed;
      ghost var all, taken: seq<Entry> := UntilNull(e.Pending()), [];
      ghost var k0, h0 := kernel, history;
      var i := 0;
      FillingStarts(k0, h0, rebuild, fates);
      NoneParsed(fates);
      assert Taken(all, taken, e.Pending()) by { TakenStarts(e.Pending()); }
      while true
        invariant Valid() && e.Valid() && |taken| == i
        invariant exist == (old(exist) || SomeParsed(taken, fates))
        invariant Taken(all, taken, e.Pending())
        invariant Filling(k0, h0, kernel, history, rebuild, Loaded(taken, fates))
        decreases |e.Pending()|
      {
        TakenStep(all, taken, e.Pending());
        FillingHas(k0, h0, kernel, history, rebuild, Loaded(taken, fates));
        var next := e.Next();
        if next.None? {
          break;
        }
        LoadedStep(taken, next.value, fates);
        ParsedStep(taken, next.value, fates);
        ghost var k, h := kernel, history;
        AddEntry(rebuild, next.value, FateAt(fates, i));
        FillingStep(k0, h0, k, h, kernel, history, rebuild, Loaded(taken, fates), Added(next.value, FateAt(fates, i)));
        taken := taken + [next.value];
        i := i + 1;
      }
      FillingEnds(k0, h0, kernel, history, rebuild, Loaded(taken, fates));
    }

    /** firewall_notify, run with no other update in progress.  Unless a destroy without a name goes
        through, the production set is at every instant its old content or the new one, and switches at
        most once; it is the new one exactly when the update reports success.  The new one is the loaded
        list together with what was left over in the rebuild set, if that could not be destroyed and the
        EXIST option made the create succeed all the same. */
    method FirewallNotify(e: Enum, rebuild: Name, prod: Name, f: NotifyFate) returns (outcome: Outcome)
      requires Valid() && e.Valid() && rebuild != prod
      modifies this, e.Footprint()
      ensures Valid()
      ensures outcome == NotCreated <==>
        !(f.create.parse && f.create.command &&
          (old(exist) || rebuild !in old(kernel) || (f.destroy.parse && f.destroy.command)))
      ensures outcome == Activated <==>
        (outcome != NotCreated && f.activate.parse1 && f.activate.parse2 &&
         (if prod in old(kernel) then f.activate.swap
          else f.activate.parse3 && f.activate.parse4 && f.activate.rename))
      ensures var entries := UntilNull(old(e.Pending()));
        var left, loaded := LeftOver(old(kernel), rebuild, f.destroy), Loaded(entries, f.adds);
        var wipes := outcome != NotCreated && Wipes(prod !in old(kernel), f.activate);
        var target := if outcome == Activated then Some(left + loaded) else Content(old(kernel), prod);
        && exist == (old(exist) || (outcome != NotCreated && SomeParsed(entries, f.adds)))
        && (wipes ==> kernel == map[] && |history| > |old(history)|)
        && (!wipes ==> Content(kernel, prod) == target)
        && (!wipes && outcome == Activated ==> (Content(kernel, prod) == Some(loaded) <==> left <= loaded))
        && (!wipes ==> OthersSame(old(kernel), kernel, {rebuild, prod}))
        && (!wipes && outcome != NotCreated && f.activate.destroy ==> rebuild !in kernel)
        && Switches(history, |old(history)|, if wipes then |history| - 1 else |history|, prod,
                    Content(old(kernel), prod), target)
      ensures old(history) <= history
    {
      hide Loaded, UntilNull, Switches, SomeParsed, LeftOver;
      var ok := Rebuild(e, rebuild, f);
      QuietSwitches(history, |old(history)|, prod, Content(old(kernel), prod));
      if !ok {
        return NotCreated;
      }
      ghost var h, k := history, kernel;
      assert Content(k, prod) == Content(old(kernel), prod);
      ok := Activate(rebuild, prod, f.activate);
      outcome := if ok then Activated else NotActivated;
      ghost var target := Content(k, if ok then rebuild else prod);
      QuietThenSwitches(h, history, |old(history)|, if Wipes(prod !in k, f.activate) then |history| - 1 else |history|,
                        prod, Content(k, prod), target);
      UnionIffSubset(LeftOver(old(kernel), rebuild, f.destroy), Loaded(UntilNull(old(e.Pending())), f.adds));
      if !Wipes(prod !in k, f.activate) {
        OthersSameTwice(old(kernel), k, kernel, rebuild, prod);
      }
    }

    /** What firewall_notify does before it activates: replace the rebuild set and fill it. */
    method Rebuild(e: Enum, rebuild: Name, f: NotifyFate) returns (ok: bool)
      requires Valid() && e.Valid()
      modifies this, e.Footprint()
      ensures Valid()
      ensures ok <==>
        (f.create.parse && f.create.command &&
         (old(exist) || rebuild !in old(kernel) || (f.destroy.parse && f.destroy.command)))
      ensures ok ==> rebuild in kernel
      ensures ok ==>
        Content(kernel, rebuild) ==
          Some(LeftOver(old(kernel), rebuild, f.destroy) + Loaded(UntilNull(old(e.Pending())), f.adds))
      ensures exist == (old(exist) || (ok && SomeParsed(UntilNull(old(e.Pending())), f.adds)))
      ensures OthersSame(old(kernel), kernel, {rebuild})
      ensures old(history) <= history
      ensures forall i :: |old(history)| <= i < |history| ==> OthersSame(old(kernel), history[i], {rebuild})
    {
      hide Loaded, UntilNull, SomeParsed;
      var _ := Call(CmdDestroy(rebuild), f.destroy);
      ok := Call(CmdCreate(rebuild, exist), f.create);
      if ok {
        assert Content(kernel, rebuild) == Some(LeftOver(old(kernel), rebuild, f.destroy));
        Populate(e, rebuild, f.adds);
      }
    }

    /** Updates one after another.  Unless a destroy without a name goes through, the production set is at
        every instant what the latest activated update published or, during an update that is activated,
        what it held before, and it never goes back.  `marks` are the lengths of the history between the
        updates, and `lists` what each update publishes when it is activated. */
    method Serve(updates: seq<Update>, rebuild: Name, prod: Name)
        returns (outcomes: seq<Outcome>, ghost marks: seq<nat>, ghost lists: seq<set<Entry>>)
      requires Valid() && rebuild != prod
      modifies this
      ensures Valid()
      ensures |outcomes| == |lists| == |updates| && |marks| == |updates| + 1
      ensures old(history) <= history && marks[0] == |old(history)| && marks[|updates|] == |history|
      ensures ListsOf(history, marks, rebuild, updates, lists)
      ensures AllNamed(updates) ==> InTurn(history, marks, prod, Content(old(kernel), prod), lists, outcomes)
      ensures AllNamed(updates) ==>
        Content(kernel, prod) == Latest(Content(old(kernel), prod), lists, outcomes, |updates|)
    {
      hide Loaded, UntilNull, InTurn, Latest, Switches, Produced, LeftOver, ListsOf, SomeParsed, Published, PendingOf, Content;
      ghost var k0 := kernel;
      ServeStarts(history, rebuild, prod, Content(k0, prod), updates);
      outcomes, marks, lists := [], [|history|], [];
      var k := 0;
      while k < |updates|
        invariant Valid()
        invariant 0 <= k <= |updates| && |outcomes| == |lists| == k && |marks| == k + 1
        invariant old(history) <= history && marks[0] == |old(history)| && marks[k] == |history|
        invariant ListsOf(history, marks, rebuild, updates, lists)
        invariant AllNamed(updates) ==> InTurn(history, marks, prod, Content(k0, prod), lists, outcomes)
        invariant AllNamed(updates) ==> Content(kernel, prod) == Latest(Content(k0, prod), lists, outcomes, k)
      {
        var u := updates[k];
        var e: Enum;
        if u.sqlite {
          e := OpenSqlite(u.query, u.steps, u.mallocOk);
        } else {
          e := OpenPostgresql(u.query, u.mallocOk);
        }
        OpenedFor(u, e.Pending());
        ghost var h, before := history, Content(kernel, prod);
        ghost var list := LeftOver(kernel, rebuild, u.fate.destroy) + Published(u);
        var outcome := FirewallNotify(e, rebuild, prod, u.fate);
        if AllNamed(updates) {
          InTurnMore(h, history, marks, prod, Content(k0, prod), lists, outcomes, outcome, list, before, Content(kernel, prod));
        }
        ListsMore(h, history, marks, rebuild, updates, lists, list);
        outcomes, marks, lists := outcomes + [outcome], marks + [|history|], lists + [list];
        k := k + 1;
      }
    }
  }

  /** Between two points of a history the production set has one content, then another, and never goes back. */
  ghost predicate Switches(h: seq<Kernel>, from: int, to: int, prod: Name, before: Option<set<Entry>>, after: Option<set<Entry>>) {
    && 0 <= from <= to <= |h|
    && (forall i :: from <= i < to ==> Content(h[i], prod) == before || Content(h[i], prod) == after)
    && (forall i, j :: from <= i < j < to && Content(h[i], prod) == after ==> Content(h[j], prod) == after)
  }

  lemma QuietSwitches(h: seq<Kernel>, from: nat, prod: Name, content: Option<set<Entry>>)
    requires from <= |h| && forall i :: from <= i < |h| ==> Content(h[i], prod) == content
    ensures Switches(h, from, |h|, prod, content, content)
  {
  }

  /** A last command that leaves the production set alone, or is not looked at. */
  lemma SwitchesOneMore(h: seq<Kernel>, h': seq<Kernel>, from: nat, prod: Name,
                        before: Option<set<Entry>>, after: Option<set<Entry>>, looked: bool)
    requires Switches(h, from, |h|, prod, before, after) && h <= h' && |h'| == |h| + 1
    requires looked ==> Content(h'[|h|], prod) == after
    ensures Switches(h', from, if looked then |h'| else |h|, prod, before, after)
  {
    assert forall i :: 0 <= i < |h| ==> h'[i] == h[i];
  }

  lemma QuietThenSwitches(h: seq<Kernel>, h': seq<Kernel>, from: nat, to: int, prod: Name,
                          before: Option<set<Entry>>, after: Option<set<Entry>>)
    requires from <= |h| && h <= h' && forall i :: from <= i < |h| ==> Content(h[i], prod) == before
    requires Switches(h', |h|, to, prod, before, after)
    ensures Switches(h', from, to, prod, before, after)
  {
  }

  lemma OthersSameTwice(k: Kernel, k': Kernel, k'': Kernel, rebuild: Name, prod: Name)
    requires OthersSame(k, k', {rebuild}) && OthersSame(k', k'', {rebuild, prod})
    ensures OthersSame(k, k'', {rebuild, prod})
  {
  }

  lemma UnionIffSubset(left: set<Entry>, loaded: set<Entry>)
    ensures left + loaded == loaded <==> left <= loaded
    ensures {} + loaded == loaded
  {
  }

  /** What the latest update activated among the first `k` published. */
  function Latest(initial: Option<set<Entry>>, lists: seq<set<Entry>>, outcomes: seq<Outcome>, k: nat): Option<set<Entry>>
    requires k <= |lists| && k <= |outcomes|
  {
    if k == 0 then initial
    else if outcomes[k - 1] == Activated then Some(lists[k - 1])
    else Latest(initial, lists, outcomes, k - 1)
  }

  /** An update publishes its list and what it finds left over from the kernel it starts with. */
  ghost predicate ListsOf(h: seq<Kernel>, marks: seq<nat>, rebuild: Name, updates: seq<Update>, lists: seq<set<Entry>>)
    requires |lists| <= |updates| && |lists| < |marks|
  {
    forall k :: 0 <= k < |lists| ==>
      0 < marks[k] <= |h| && lists[k] == LeftOver(h[marks[k] - 1], rebuild, updates[k].fate.destroy) + Published(updates[k])
  }

  lemma ServeStarts(h: seq<Kernel>, rebuild: Name, prod: Name, initial: Option<set<Entry>>, updates: seq<Update>)
    ensures ListsOf(h, [|h|], rebuild, updates, [])
    ensures InTurn(h, [|h|], prod, initial, [], [])
    ensures initial == Latest(initial, [], [], 0)
  {
  }

  /** What an opened enumerator gives is what the update publishes. */
  lemma OpenedFor(u: Update, pending: seq<Value>)
    requires pending == if u.query.Rows? && u.mallocOk then
                          (if u.sqlite then Produced(u.query.rows, u.steps, 0) else GetValues(u.query.rows))
                        else []
    ensures Loaded(UntilNull(pending), u.fate.adds) == Published(u)
  {
  }

  lemma ListsMore(h: seq<Kernel>, h': seq<Kernel>, marks: seq<nat>, rebuild: Name, updates: seq<Update>,
                  lists: seq<set<Entry>>, list: set<Entry>)
    requires |lists| < |updates| && |marks| == |lists| + 1 && marks[|lists|] == |h| && h != [] && h <= h'
    requires ListsOf(h, marks, rebuild, updates, lists)
    requires list == LeftOver(h[|h| - 1], rebuild, updates[|lists|].fate.destroy) + Published(updates[|lists|])
    ensures ListsOf(h', marks + [|h'|], rebuild, updates, lists + [list])
  {
    hide LeftOver, Published;
  }

  /** During each update the production set goes from the latest list before it to the latest after it. */
  ghost predicate InTurn(h: seq<Kernel>, marks: seq<nat>, prod: Name, initial: Option<set<Entry>>,
                         lists: seq<set<Entry>>, outcomes: seq<Outcome>)
    requires |outcomes| == |lists| && |marks| == |outcomes| + 1
  {
    forall k :: 0 <= k < |outcomes| ==>
      Switches(h, marks[k], marks[k + 1], prod, Latest(initial, lists, outcomes, k), Latest(initial, lists, outcomes, k + 1))
  }

  predicate AllNamed(updates: seq<Update>) {
    forall u :: u in updates ==> u.fate.activate.parse5 || !u.fate.activate.destroy
  }

  lemma {:induction false} LatestMore(initial: Option<set<Entry>>, lists: seq<set<Entry>>, outcomes: seq<Outcome>,
                                      list: set<Entry>, o: Outcome, k: nat)
    requires k <= |lists| && k <= |outcomes|
    ensures Latest(initial, lists + [list], outcomes + [o], k) == Latest(initial, lists, outcomes, k)
  {
    if k > 0 { LatestMore(initial, lists, outcomes, list, o, k - 1); }
  }

  lemma InTurnMore(h: seq<Kernel>, h': seq<Kernel>, marks: seq<nat>, prod: Name, initial: Option<set<Entry>>,
                   lists: seq<set<Entry>>, outcomes: seq<Outcome>, o: Outcome, list: set<Entry>,
                   before: Option<set<Entry>>, after: Option<set<Entry>>)
    requires |outcomes| == |lists| && |marks| == |outcomes| + 1 && marks[|outcomes|] == |h| && h <= h'
    requires InTurn(h, marks, prod, initial, lists, outcomes)
    requires before == Latest(initial, lists, outcomes, |outcomes|)
    requires after == if o == Activated then Some(list) else before
    requires Switches(h', |h|, |h'|, prod, before, after)
    ensures InTurn(h', marks + [|h'|], prod, initial, lists + [list], outcomes + [o])
    ensures after == Latest(initial, lists + [list], outcomes + [o], |outcomes| + 1)
  {
    var n := |outcomes|;
    LatestMore(initial, lists, outcomes, list, o, n);
    forall k | 0 <= k < n + 1
      ensures Switches(h', (marks + [|h'|])[k], (marks + [|h'|])[k + 1], prod,
                       Latest(initial, lists + [list], outcomes + [o], k), Latest(initial, lists + [list], outcomes + [o], k + 1))
    {
      if k < n {
        LatestMore(initial, lists, outcomes, list, o, k);
        LatestMore(initial, lists, outcomes, list, o, k + 1);
        assert Switches(h, marks[k], marks[k + 1], prod,
                        Latest(initial, lists, outcomes, k), Latest(initial, lists, outcomes, k + 1));
      }
    }
  }

  /** What a run of updates leaves is the initial content or what the last of its activated updates published. */
  lemma {:induction false} LatestIsOne(initial: Option<set<Entry>>, lists: seq<set<Entry>>, outcomes: seq<Outcome>, k: nat)
    requires k <= |lists| && k <= |outcomes|
    ensures if forall j :: 0 <= j < k ==> outcomes[j] != Activated then Latest(initial, lists, outcomes, k) == initial
      else exists j :: 0 <= j < k && outcomes[j] == Activated && Latest(initial, lists, outcomes, k) == Some(lists[j]) &&
             forall i :: j < i < k ==> outcomes[i] != Activated
  {
    if k > 0 { LatestIsOne(initial, lists, outcomes, k - 1); }
  }

  /** While the fill loop runs: the rebuild set holds what it had and what was loaded, nothing else changed,
      and so it was at every instant since. */
  ghost predicate Filling(k0: Kernel, h0: seq<Kernel>, k: Kernel, h: seq<Kernel>, rebuild: Name, loaded: set<Entry>) {
    && rebuild in k0 && Content(k, rebuild) == Some(k0[rebuild] + loaded)
    && OthersSame(k0, k, {rebuild})
    && h0 <= h && forall i :: |h0| <= i < |h| ==> OthersSame(k0, h[i], {rebuild})
  }

  lemma NoneParsed(fates: seq<Fate>)
    ensures !SomeParsed([], fates)
  {
  }

  lemma ParsedStep(taken: seq<Entry>, x: Entry, fates: seq<Fate>)
    ensures SomeParsed(taken + [x], fates) <==> SomeParsed(taken, fates) || (x != "" && FateAt(fates, |taken|).parse)
  {
    var more := taken + [x];
    assert more[|taken|] == x;
    assert forall i :: 0 <= i < |taken| ==> more[i] == taken[i];
  }

  lemma FillingStarts(k0: Kernel, h0: seq<Kernel>, rebuild: Name, fates: seq<Fate>)
    requires rebuild in k0
    ensures Filling(k0, h0, k0, h0, rebuild, Loaded([], fates))
  {
    assert Loaded([], fates) == {} && k0[rebuild] + {} == k0[rebuild];
  }

  lemma FillingHas(k0: Kernel, h0: seq<Kernel>, k: Kernel, h: seq<Kernel>, rebuild: Name, loaded: set<Entry>)
    requires Filling(k0, h0, k, h, rebuild, loaded)
    ensures rebuild in k
  {
  }

  lemma FillingEnds(k0: Kernel, h0: seq<Kernel>, k: Kernel, h: seq<Kernel>, rebuild: Name, loaded: set<Entry>)
    requires Filling(k0, h0, k, h, rebuild, loaded)
    ensures rebuild in k0 && Content(k, rebuild) == Some(k0[rebuild] + loaded)
    ensures OthersSame(k0, k, {rebuild})
    ensures h0 <= h && forall i :: |h0| <= i < |h| ==> OthersSame(k0, h[i], {rebuild})
  {
  }

  lemma FillingStep(k0: Kernel, h0: seq<Kernel>, k: Kernel, h: seq<Kernel>, k': Kernel, h': seq<Kernel>, rebuild: Name,
                    loaded: set<Entry>, more: set<Entry>)
    requires Filling(k0, h0, k, h, rebuild, loaded) && rebuild in k
    requires Content(k', rebuild) == Some(k[rebuild] + more) && OthersSame(k, k', {rebuild})
    requires h <= h' && forall i :: |h| <= i < |h'| ==> OthersSame(k, h'[i], {rebuild})
    ensures Filling(k0, h0, k', h', rebuild, loaded + more)
  {
    SetAssociates(k0[rebuild], loaded, more);
  }

  /** One notification or timer tick: which driver answers, its query and how its steps go, and how the
      commands go. */
  datatype Update = Update(sqlite: bool, query: Query, steps: seq<bool>, mallocOk: bool, fate: NotifyFate)

  /** The rows an update's enumerator has to give. */
  function PendingOf(u: Update): seq<Value> {
    if u.query.Rows? && u.mallocOk then
      (if u.sqlite then Produced(u.query.rows, u.steps, 0) else GetValues(u.query.rows))
    else []
  }

  /** What an activated update publishes: of the rows its loop meets, those whose add went through. */
  function Published(u: Update): set<Entry> {
    Loaded(UntilNull(PendingOf(u)), u.fate.adds)
  }

  /** Every set but the named ones is the same in both kernels. */
  ghost predicate OthersSame(k: Kernel, k': Kernel, names: set<Name>) {
    forall n :: n !in names ==> Content(k', n) == Content(k, n)
  }

  datatype NotifyFate = NotifyFate(destroy: Fate, create: Fate, adds: seq<Fate>, activate: ActivateFate)

  datatype Outcome = NotCreated | NotActivated | Activated

  lemma SetAssociates(a: set<Entry>, b: set<Entry>, c: set<Entry>)
    ensures (a + b) + c == a + (b + c)
    ensures a + {} == a
  {
  }

  /** What a loop has fetched so far of the entries it will meet. */
  ghost predicate Taken(all: seq<Entry>, taken: seq<Entry>, pending: seq<Value>) {
    taken + UntilNull(pending) == all
  }

  lemma TakenStarts(pending: seq<Value>)
    ensures Taken(UntilNull(pending), [], pending)
  {
  }

  lemma TakenStep(all: seq<Entry>, taken: seq<Entry>, pending: seq<Value>)
    requires Taken(all, taken, pending)
    ensures if pending == [] || pending[0] == None then taken == all
            else Taken(all, taken + [pending[0].value], pending[1..])
  {
    if pending != [] && pending[0] != None {
      assert taken + ([pending[0].value] + UntilNull(pending[1..])) == taken + [pending[0].value] + UntilNull(pending[1..]);
    }
  }

  lemma LoadedStep(taken: seq<Entry>, x: Entry, fates: seq<Fate>)
    ensures Loaded(taken + [x], fates) == Loaded(taken, fates) + Added(x, FateAt(fates, |taken|))
  {
    var more := taken + [x];
    assert forall i :: 0 <= i < |taken| ==> more[i] == taken[i];
    if Added(x, FateAt(fates, |taken|)) != {} {
      assert more[|taken|] == x;
    }
  }

  /** With every add going through, the loaded set is exactly the nonempty rows of the query. */
  lemma LoadedAll(entries: seq<Entry>)
    ensures Loaded(entries, []) == set x | x in entries && x != ""
  {
    forall x | x in entries && x != ""
      ensures x in Loaded(entries, [])
    {
      var i :| 0 <= i < |entries| && entries[i] == x;
      assert entries[i] != "" && FateAt([], i).parse;
    }
  }

  /** The nonempty rows of a query. */
  function Whole(rows: seq<Value>): set<Entry> {
    set r | r in rows && r.Some? && r.value != "" :: r.value
  }

  /** Every nonempty row is published with PostgreSQL when every add goes through. */
  lemma PostgresqlPublishesWhole(rows: seq<Value>)
    ensures Loaded(UntilNull(GetValues(rows)), []) == Whole(rows)
  {
    var met := UntilNull(GetValues(rows));
    PostgresqlLoop(rows);
    LoadedAll(met);
    forall r | r in rows && r.Some? && r.value != ""
      ensures r.value in met
    {
      var k :| 0 <= k < |rows| && rows[k] == r;
      assert met[k] == r.value;
    }
    forall x | x in met && x != ""
      ensures Some(x) in rows
    {
      var k :| 0 <= k < |met| && met[k] == x;
      assert rows[k] == Some(x);
    }
  }

  /** The rows as the query gives them: block_now lists every block once, as a nonempty text. */
  predicate Keys(rows: seq<Value>) {
    (forall k :: 0 <= k < |rows| ==> rows[k].Some? && rows[k].value != "") &&
    (forall j, k :: 0 <= j < k < |rows| ==> rows[j] != rows[k])
  }

  /** Every add of the first `n` entries is parsed and carried out. */
  predicate AddsGoWell(fates: seq<Fate>, n: nat) {
    forall i :: 0 <= i < n ==> FateAt(fates, i).parse && FateAt(fates, i).command
  }

  /** A loop that meets a front of such rows loads nothing else, and all of them exactly when it meets them
      all and every add goes well. */
  lemma FrontLoadsWholeIff(rows: seq<Value>, met: seq<Entry>, fates: seq<Fate>)
    requires Keys(rows) && |met| <= |rows| && forall k :: 0 <= k < |met| ==> rows[k] == Some(met[k])
    ensures Loaded(met, fates) <= Whole(rows)
    ensures Loaded(met, fates) == Whole(rows) <==> |met| == |rows| && AddsGoWell(fates, |rows|)
  {
    forall x | x in Loaded(met, fates)
      ensures x in Whole(rows)
    {
      var i :| 0 <= i < |met| && met[i] != "" && met[i] == x;
      assert rows[i] == Some(x);
    }
    if |met| == |rows| && AddsGoWell(fates, |rows|) {
      forall x | x in Whole(rows)
        ensures x in Loaded(met, fates)
      {
        var i :| 0 <= i < |rows| && rows[i] == Some(x);
        assert met[i] == x && FateAt(fates, i).parse && FateAt(fates, i).command;
      }
    } else {
      var n := |met|;
      if !AddsGoWell(fates, |met|) {
        n := FailedAdd(fates, |met|);
      }
      NotLoaded(rows, met, fates, n);
    }
  }

  lemma FailedAdd(fates: seq<Fate>, n: nat) returns (i: nat)
    requires !AddsGoWell(fates, n)
    ensures i < n && !(FateAt(fates, i).parse && FateAt(fates, i).command)
  {
    i :| 0 <= i < n && !(FateAt(fates, i).parse && FateAt(fates, i).command);
  }

  /** A row that is not met or whose add fails is missing. */
  lemma NotLoaded(rows: seq<Value>, met: seq<Entry>, fates: seq<Fate>, n: nat)
    requires Keys(rows) && |met| <= |rows| && forall k :: 0 <= k < |met| ==> rows[k] == Some(met[k])
    requires n < |rows| && (n < |met| ==> !(FateAt(fates, n).parse && FateAt(fates, n).command))
    ensures rows[n].value in Whole(rows) && rows[n].value !in Loaded(met, fates)
  {
    var x := rows[n].value;
    forall i | 0 <= i < |met| && FateAt(fates, i).parse && FateAt(fates, i).command
      ensures met[i] != x
    {
      assert rows[i] != rows[n];
    }
  }

  /** An activated update that found nothing left over publishes the whole of the table's list exactly when
      the query and the enumerator's allocation went well (or the list is empty), no SQLite step failed, and
      every add went well. */
  lemma PublishesWholeIff(u: Update, rows: seq<Value>)
    requires Keys(rows) && (u.query == QueryFailed || u.query == Rows(rows))
    ensures Published(u) <= Whole(rows)
    ensures Published(u) == Whole(rows) <==>
      rows == [] ||
      (u.query.Rows? && u.mallocOk && (u.sqlite ==> NoStepFails(rows, u.steps)) && AddsGoWell(u.fate.adds, |rows|))
  {
    hide Loaded, Whole, Produced, AddsGoWell;
    if u.query.Rows? && u.mallocOk {
      var met := UntilNull(PendingOf(u));
      if u.sqlite {
        SqliteLoop(rows, u.steps);
      } else {
        PostgresqlLoop(rows);
      }
      FrontLoadsWholeIff(rows, met, u.fate.adds);
      NoAdds(u.fate.adds);
    } else {
      FrontLoadsWholeIff(rows, [], u.fate.adds);
      NoAdds(u.fate.adds);
    }
  }

  lemma NoAdds(fates: seq<Fate>)
    ensures AddsGoWell(fates, 0)
  {
  }

  /** With SQLite nothing but rows of the query is published, whatever they are, and all nonempty rows when
      none is NULL, no step fails and every add goes well. */
  lemma SqlitePublishesRows(rows: seq<Value>, steps: seq<bool>)
    ensures Loaded(UntilNull(Produced(rows, steps, 0)), []) <= Whole(rows)
    ensures NoNull(rows) && NoStepFails(rows, steps) ==> Loaded(UntilNull(Produced(rows, steps, 0)), []) == Whole(rows)
  {
    var met := UntilNull(Produced(rows, steps, 0));
    hide UntilNull, Produced, Loaded;
    SqliteLoop(rows, steps);
    LoadedAll(met);
    forall x | x in met && x != ""
      ensures Some(x) in rows
    {
      var k :| 0 <= k < |met| && met[k] == x;
      assert rows[k] == Some(x);
    }
    if |met| == |rows| {
      forall r | r in rows && r.Some? && r.value != ""
        ensures r.value in met
      {
        var k :| 0 <= k < |rows| && rows[k] == r;
        assert met[k] == r.value;
      }
    }
  }

  /** A failed query, or a failed allocation of the enumerator, publishes the empty list with either driver,
      though every command succeeds. */
  lemma FailedQueryPublishesNothing(sqlite: bool)
    ensures Published(Update(sqlite, QueryFailed, [], true, ALL_WELL)) == {}
    ensures Published(Update(sqlite, Rows([Some("b")]), [], false, ALL_WELL)) == {}
    ensures Keys([Some("b")]) && Whole([Some("b")]) == {"b"}
  {
    assert [Some("b")][0] == Some("b");
  }

  /** An update in which the second step of the statement fails and every command succeeds publishes the
      first of two rows, and reports success. */
  lemma FailedStepPublishesPart()
    ensures Published(Update(true, Rows([Some("b"), Some("c")]), [true, false], true, ALL_WELL)) == {"b"}
    ensures Whole([Some("b"), Some("c")]) == {"b", "c"}
  {
    var rows := [Some("b"), Some("c")];
    assert Produced(rows, [true, false], 1) == [];
    assert Produced(rows, [true, false], 0) == [Some("b")];
    assert UntilNull([Some("b")]) == ["b"];
    LoadedAll(["b"]);
    assert Some("b") in rows && Some("c") in rows;
  }

  const ALL_WELL := NotifyFate(Fate(true, true), Fate(true, true), [],
                               ActivateFate(true, true, true, true, true, true, true, true))

  /** Over rows without NULL, with no failing step, both drivers make a successful update produce the set of
      nonempty rows. */
  lemma DriversLoadSame(rows: seq<Value>, steps: seq<bool>)
    requires NoNull(rows) && NoStepFails(rows, steps)
    ensures Loaded(UntilNull(Produced(rows, steps, 0)), []) == Loaded(UntilNull(GetValues(rows)), []) == Whole(rows)
  {
    DriversAgree(rows, steps);
    PostgresqlPublishesWhole(rows);
  }
}
