/** The rate-based block table over time (firewall-daemon/psql-db.schema): the insert trigger on the event
    log adds and extends blocks, and the cleanup function deletes expired ones. */
module RateBlock {
  import opened Options
  import opened Cidr
  import opened BlockList
  import opened LogCounts

  const WEEK := 604800

  /** The block interval for one address; the first threshold met decides. */
  function AddressInterval(c: Counts): Option<nat> {
    if c.lastFive >= 20 then Some(FIFTEEN)
    else if c.lastFifteen >= 60 then Some(HOUR)
    else if c.lastHour >= 80 then Some(DAY)
    else if c.lastDay >= 150 then Some(WEEK)
    else None
  }

  function Net16Interval(c: Counts): Option<nat> {
    if c.lastFive >= 80 then Some(HOUR)
    else if c.lastFifteen >= 150 then Some(12 * HOUR)
    else if c.lastHour >= 200 then Some(DAY)
    else if c.lastDay >= 350 then Some(WEEK)
    else None
  }

  function Net24Interval(c: Counts): Option<nat> {
    if c.lastFive >= 40 then Some(HOUR)
    else if c.lastFifteen >= 100 then Some(12 * HOUR)
    else if c.lastHour >= 120 then Some(DAY)
    else if c.lastDay >= 200 then Some(WEEK)
    else None
  }

  /** A threshold: that many attempts in a window block for that long. */
  datatype Limit = Limit(window: int, attempts: nat, interval: nat)

  const ADDRESS_LIMITS: seq<Limit> := [Limit(300, 20, 900), Limit(900, 60, 3600), Limit(3600, 80, 86400), Limit(86400, 150, 604800)]
  const NET16_LIMITS: seq<Limit> := [Limit(300, 80, 3600), Limit(900, 150, 43200), Limit(3600, 200, 86400), Limit(86400, 350, 604800)]
  const NET24_LIMITS: seq<Limit> := [Limit(300, 40, 3600), Limit(900, 100, 43200), Limit(3600, 120, 86400), Limit(86400, 200, 604800)]

  /** The limit is met: so many places of the log hold an authentication attempt from the block in the window. */
  predicate Met(r: Limit, log: seq<LogRow>, d: Block, now: int) {
    |Attempts(log, d, now - r.window)| >= r.attempts
  }

  /** The shortest interval among the limits that are met; none when none is. */
  ghost predicate ShortestMet(limits: seq<Limit>, log: seq<LogRow>, d: Block, now: int, decision: Option<nat>) {
    match decision
    case None => forall i :: 0 <= i < |limits| ==> !Met(limits[i], log, d, now)
    case Some(iv) =>
      && (exists i :: 0 <= i < |limits| && Met(limits[i], log, d, now) && limits[i].interval == iv)
      && (forall i :: 0 <= i < |limits| && Met(limits[i], log, d, now) ==> iv <= limits[i].interval)
  }

  predicate Expired(r: Row, now: int) {
    r.end.Some? && r.end.value <= now
  }

  /** What becomes of the row the query found, or of the table when it found none. */
  function Extend(raw: Table, net: Block, found: Option<Block>, now: int, interval: nat): Table
    requires found.Some? ==> found.value in raw
  {
    match found
    case None => raw[net := Row(Some(now), Some(now + interval))]
    case Some(c) =>
      if Expired(raw[c], now) then raw[c := raw[c].(end := Some(now + interval))] else raw
  }

  /** `SELECT INTO` yields some matching row, or none when there is none. */
  predicate MayFind(raw: Table, net: Block, exact: bool, found: Option<Block>) {
    match found
    case None => forall c :: c in raw ==> !Matches(net, c, exact)
    case Some(c) => c in raw && Matches(net, c, exact)
  }

  predicate Matches(net: Block, c: Block, exact: bool) {
    if exact then c == net else Within(net, c)
  }

  /** One threshold test and its effect. */
  ghost predicate Guarded(raw: Table, raw': Table, net: Block, exact: bool, interval: Option<nat>, now: int) {
    match interval
    case None => raw' == raw
    case Some(iv) => exists found :: MayFind(raw, net, exact, found) && raw' == Extend(raw, net, found, now, iv)
  }

  function LookUp<K, V>(view: map<K, V>, key: K): Option<V> {
    if key in view then Some(view[key]) else None
  }

  /** The interval a threshold function gives to a found view row; none when no row was found. */
  function Threshold(row: Option<Counts>, interval: Counts -> Option<nat>): Option<nat> {
    if row.Some? then interval(row.value) else None
  }

  function AddressDecision(log: seq<LogRow>, src: Address, now: int): Option<nat> {
    Threshold(LookUp(AddressCounts(log, now), src), AddressInterval)
  }

  function Net16Decision(log: seq<LogRow>, src: Address, now: int): Option<nat> {
    Threshold(LookUp(NetCounts(log, 16, now), NetworkOf(src, 16)), Net16Interval)
  }

  function Net24Decision(log: seq<LogRow>, src: Address, now: int): Option<nat> {
    Threshold(LookUp(NetCounts(log, 24, now), NetworkOf(src, 24)), Net24Interval)
  }

  /** The trigger: the address test, then the /16 test, or the /24 test when the /16 view has no row. */
  ghost predicate Filtered(raw: Table, raw': Table, log: seq<LogRow>, src: Address, now: int) {
    exists mid ::
      && Guarded(raw, mid, Host(src), true, AddressDecision(log, src, now), now)
      && if NetworkOf(src, 16) in NetCounts(log, 16, now)
         then Guarded(mid, raw', NetworkOf(src, 16), false, Net16Decision(log, src, now), now)
         else Guarded(mid, raw', NetworkOf(src, 24), false, Net24Decision(log, src, now), now)
  }

  function Cleaned(raw: Table, now: int): Table {
    map c | c in raw && !Expired(raw[c], now) :: raw[c]
  }

  function ExpiredKeys(raw: Table, now: int): set<Block> {
    set c | c in raw && Expired(raw[c], now)
  }

  /** The event log and the block table, as the database changes them. */
  class Database {
    var log: seq<LogRow>
    var blockRaw: Table

    constructor ()
      ensures log == [] && blockRaw == map[]
    {
      log, blockRaw := [], map[];
    }

    /** cleanup_block_table: delete expired rows and report how many. */
    method CleanupBlockTable(now: int) returns (nrows: nat)
      modifies this`blockRaw
      ensures Next(State(log, old(blockRaw)), State(log, blockRaw), Cleanup, now)
      ensures nrows == |ExpiredKeys(old(blockRaw), now)|
    {
      var gone := ExpiredKeys(blockRaw, now);
      blockRaw := blockRaw - gone;
      nrows := |gone|;
    }

    /** An insert into the log, and the trigger that follows it. */
    method InsertLogRow(row: LogRow, now: int)
      modifies this
      ensures Next(State(old(log), old(blockRaw)), State(log, blockRaw), Insert(row), now)
    {
      log := log + [row];
      PamRatebasedFirewallFilter(row.src, now);
    }

    /** pam_ratebased_firewall_filter, up to the checksum. */
    method PamRatebasedFirewallFilter(src: Address, now: int)
      modifies this`blockRaw
      ensures Filtered(old(blockRaw), blockRaw, log, src, now)
    {
      var data := LookUp(AddressCounts(log, now), src);
      if data.Some? {
        var blockInterval := AddressInterval(data.value);
        if blockInterval.Some? {
          ExtendOrInsert(Host(src), true, now, blockInterval.value);
        }
      }
      ghost var mid := blockRaw;
      assert Guarded(old(blockRaw), mid, Host(src), true, AddressDecision(log, src, now), now);
      data := LookUp(NetCounts(log, 16, now), NetworkOf(src, 16));
      if data.Some? {
        var blockInterval := Net16Interval(data.value);
        if blockInterval.Some? {
          ExtendOrInsert(NetworkOf(src, 16), false, now, blockInterval.value);
        }
        assert Guarded(mid, blockRaw, NetworkOf(src, 16), false, Net16Decision(log, src, now), now);
      } else {
        data := LookUp(NetCounts(log, 24, now), NetworkOf(src, 24));
        if data.Some? {
          var blockInterval := Net24Interval(data.value);
          if blockInterval.Some? {
            ExtendOrInsert(NetworkOf(src, 24), false, now, blockInterval.value);
          }
        }
        assert Guarded(mid, blockRaw, NetworkOf(src, 24), false, Net24Decision(log, src, now), now);
      }
    }

    /** Insert a new block into the table, extending the end date of an expired row that matches. */
    method ExtendOrInsert(net: Block, exact: bool, now: int, interval: nat)
      modifies this`blockRaw
      ensures exists found :: MayFind(old(blockRaw), net, exact, found)
                           && blockRaw == Extend(old(blockRaw), net, found, now, interval)
    {
      ghost var found: Option<Block>;
      if exists c :: c in blockRaw && Matches(net, c, exact) {
        var block :| block in blockRaw && Matches(net, block, exact);
        found := Some(block);
        if Expired(blockRaw[block], now) {
          blockRaw := blockRaw[block := blockRaw[block].(end := Some(now + interval))];
        }
      } else {
        found := None;
        blockRaw := blockRaw[net := Row(Some(now), Some(now + interval))];
      }
      assert MayFind(old(blockRaw), net, exact, found);
    }
  }

  // ---------------------------------------------------------------- one step

  datatype State = State(log: seq<LogRow>, raw: Table)

  datatype Op = Insert(row: LogRow) | Cleanup

  /** One database call at the instant `now`. */
  ghost predicate Next(s: State, s': State, op: Op, now: int) {
    match op
    case Insert(row) => s'.log == s.log + [row] && Filtered(s.raw, s'.raw, s'.log, row.src, now)
    case Cleanup => s'.log == s.log && s'.raw == Cleaned(s.raw, now)
  }

  /** `later` is no earlier an end date than `e`; NULL never ends. */
  predicate NoEarlier(later: Option<int>, e: Option<int>) {
    later.None? || (e.Some? && e.value <= later.value)
  }

  /** Every row is still there with an end date no earlier, or had ended by `now`; start dates stay. */
  ghost predicate Kept(raw: Table, raw': Table, now: int) {
    forall c :: c in raw ==>
      if c in raw' then NoEarlier(raw'[c].end, raw[c].end) && (raw'[c].start == raw[c].start || Expired(raw[c], now))
      else Expired(raw[c], now)
  }

  /** A row that was not there before does not end before `now`. */
  ghost predicate NewRowsLast(raw: Table, raw': Table, now: int) {
    forall c :: c in raw' && c !in raw ==> NoEarlier(raw'[c].end, Some(now))
  }

  lemma GuardedKeeps(raw: Table, raw': Table, net: Block, exact: bool, interval: Option<nat>, now: int)
    requires Guarded(raw, raw', net, exact, interval, now)
    ensures forall c :: c in raw ==>
      c in raw' && raw'[c].start == raw[c].start && NoEarlier(raw'[c].end, raw[c].end)
    ensures NewRowsLast(raw, raw', now)
  {
    if interval.Some? {
      var found :| MayFind(raw, net, exact, found) && raw' == Extend(raw, net, found, now, interval.value);
      if found == None && net in raw {
        WithinReflexive(net);
        assert Matches(net, net, exact);
      }
    }
  }

  /** The /24 branch never changes the table: without a /16 row there is no /24 row either. */
  lemma Net24BranchIsDead(log: seq<LogRow>, src: Address, now: int)
    requires NetworkOf(src, 16) !in NetCounts(log, 16, now)
    ensures Net24Decision(log, src, now) == None
    ensures forall raw, raw' :: Guarded(raw, raw', NetworkOf(src, 24), false, Net24Decision(log, src, now), now) <==> raw' == raw
  {
    if NetworkOf(src, 24) in NetCounts(log, 24, now) {
      LongerRowImpliesShorter(log, 16, 24, now, src);
    }
  }

  /** A row whose end date is NULL or later than `now` and whose block holds `net`. */
  predicate Guards(raw: Table, net: Block, now: int) {
    exists c :: c in raw && Within(net, c) && !Expired(raw[c], now)
  }

  lemma GuardedGuards(raw: Table, raw': Table, net: Block, exact: bool, interval: Option<nat>, now: int)
    requires Guarded(raw, raw', net, exact, interval, now) && interval.Some? && interval.value > 0
    ensures Guards(raw', net, now)
  {
    WithinReflexive(net);
    hide Within;
    var found :| MayFind(raw, net, exact, found) && raw' == Extend(raw, net, found, now, interval.value);
    match found {
      case None =>
        assert net in raw' && !Expired(raw'[net], now);
      case Some(c) =>
        assert c in raw' && Within(net, c) && !Expired(raw'[c], now);
    }
  }

  lemma GuardsKept(raw: Table, raw': Table, net: Block, now: int)
    requires Guards(raw, net, now) && Kept(raw, raw', now)
    ensures Guards(raw', net, now)
  {
    hide Within;
    var c :| c in raw && Within(net, c) && !Expired(raw[c], now);
    assert c in raw' && !Expired(raw'[c], now);
  }

  /** A row the trigger changed holds the tested block, had expired or is new from `now` on, and ends the
      interval from `now`. */
  predicate Changed(raw: Table, raw': Table, c: Block, net: Block, interval: Option<nat>, now: int)
    requires c in raw'
  {
    && interval.Some? && Within(net, c) && raw'[c].end == Some(now + interval.value)
    && if c in raw then Expired(raw[c], now) && raw'[c].start == raw[c].start else raw'[c].start == Some(now)
  }

  predicate Untouched(raw: Table, raw': Table, c: Block)
    requires c in raw'
  {
    c in raw && raw'[c] == raw[c]
  }

  lemma GuardedChanges(raw: Table, raw': Table, net: Block, exact: bool, interval: Option<nat>, now: int)
    requires Guarded(raw, raw', net, exact, interval, now)
    ensures forall c :: c in raw' ==> Untouched(raw, raw', c) || Changed(raw, raw', c, net, interval, now)
  {
    if interval.Some? {
      WithinReflexive(net);
      hide Within;
      var found :| MayFind(raw, net, exact, found) && raw' == Extend(raw, net, found, now, interval.value);
    }
  }

  lemma DecisionsPositive(log: seq<LogRow>, src: Address, now: int)
    ensures AddressDecision(log, src, now).Some? ==> AddressDecision(log, src, now).value > 1
    ensures Net16Decision(log, src, now).Some? ==> Net16Decision(log, src, now).value > 1
    ensures Net24Decision(log, src, now).Some? ==> Net24Decision(log, src, now).value > 1
  {
  }

  /** The table between the address test and the subnet test. */
  lemma BetweenTests(s: State, s': State, row: LogRow, now: int) returns (mid: Table)
    requires Next(s, s', Insert(row), now)
    ensures Guarded(s.raw, mid, Host(row.src), true, AddressDecision(s'.log, row.src, now), now)
    ensures if Net16Decision(s'.log, row.src, now).Some?
            then Guarded(mid, s'.raw, NetworkOf(row.src, 16), false, Net16Decision(s'.log, row.src, now), now)
            else s'.raw == mid
  {
    mid :|
      && Guarded(s.raw, mid, Host(row.src), true, AddressDecision(s'.log, row.src, now), now)
      && if NetworkOf(row.src, 16) in NetCounts(s'.log, 16, now)
         then Guarded(mid, s'.raw, NetworkOf(row.src, 16), false, Net16Decision(s'.log, row.src, now), now)
         else Guarded(mid, s'.raw, NetworkOf(row.src, 24), false, Net24Decision(s'.log, row.src, now), now);
    if NetworkOf(row.src, 16) !in NetCounts(s'.log, 16, now) {
      Net24BranchIsDead(s'.log, row.src, now);
    }
  }

  lemma NextKeeps(s: State, s': State, op: Op, now: int)
    requires Next(s, s', op, now)
    ensures Kept(s.raw, s'.raw, now) && NewRowsLast(s.raw, s'.raw, now)
  {
    if op.Insert? {
      var mid := BetweenTests(s, s', op.row, now);
      var one, two := AddressDecision(s'.log, op.row.src, now), Net16Decision(s'.log, op.row.src, now);
      hide AddressDecision, Net16Decision, Guarded, Filtered;
      GuardedKeeps(s.raw, mid, Host(op.row.src), true, one, now);
      if two.Some? {
        GuardedKeeps(mid, s'.raw, NetworkOf(op.row.src, 16), false, two, now);
      }
    }
  }

  /** After an insert that meets an address threshold some row holding the address has a NULL end date
      or one later than now; after one that meets a /16 threshold, some row holding the /16 does. */
  lemma ThresholdBlocks(s: State, s': State, row: LogRow, now: int)
    requires Next(s, s', Insert(row), now)
    ensures AddressDecision(s'.log, row.src, now).Some? ==> Guards(s'.raw, Host(row.src), now)
    ensures Net16Decision(s'.log, row.src, now).Some? ==> Guards(s'.raw, NetworkOf(row.src, 16), now)
  {
    var mid := BetweenTests(s, s', row, now);
    var one, two := AddressDecision(s'.log, row.src, now), Net16Decision(s'.log, row.src, now);
    DecisionsPositive(s'.log, row.src, now);
    hide AddressDecision, Net16Decision, Guards, Guarded, Filtered;
    if two.Some? {
      GuardedGuards(mid, s'.raw, NetworkOf(row.src, 16), false, two, now);
    }
    if one.Some? {
      GuardedGuards(s.raw, mid, Host(row.src), true, one, now);
      if two.Some? {
        GuardedKeeps(mid, s'.raw, NetworkOf(row.src, 16), false, two, now);
        GuardsKept(mid, s'.raw, Host(row.src), now);
      }
    }
  }

  /** And nothing else happens: a row that an insert changes or adds holds the source address (and the /16
      if that test changed it), had expired or starts now, and ends the decided interval from now. */
  lemma InsertChanges(s: State, s': State, row: LogRow, now: int, c: Block)
    requires Next(s, s', Insert(row), now) && c in s'.raw
    ensures Untouched(s.raw, s'.raw, c)
         || Changed(s.raw, s'.raw, c, Host(row.src), AddressDecision(s'.log, row.src, now), now)
         || Changed(s.raw, s'.raw, c, NetworkOf(row.src, 16), Net16Decision(s'.log, row.src, now), now)
  {
    var mid := BetweenTests(s, s', row, now);
    var one, two := AddressDecision(s'.log, row.src, now), Net16Decision(s'.log, row.src, now);
    DecisionsPositive(s'.log, row.src, now);
    hide AddressDecision, Net16Decision, Guarded, Filtered, Within;
    GuardedKeeps(s.raw, mid, Host(row.src), true, one, now);
    GuardedChanges(s.raw, mid, Host(row.src), true, one, now);
    if two.Some? {
      GuardedChanges(mid, s'.raw, NetworkOf(row.src, 16), false, two, now);
    } else {
      assert Untouched(mid, s'.raw, c);
    }
    ChangesCompose(s.raw, mid, s'.raw, c, Host(row.src), one, NetworkOf(row.src, 16), two, now);
  }

  /** The /16 test adds a row only when no row of the table contains the /16. */
  lemma Net16AddsOnlyUncovered(s: State, s': State, row: LogRow, now: int, c: Block)
    requires Next(s, s', Insert(row), now) && c in s'.raw && c !in s.raw && c != Host(row.src)
    ensures c == NetworkOf(row.src, 16)
    ensures forall d :: d in s.raw ==> exists a :: Contains(c, a) && !Contains(d, a)
  {
    hide AddressDecision, Net16Decision, Filtered, Within, Contains;
    var mid := BetweenTests(s, s', row, now);
    var one, two := AddressDecision(s'.log, row.src, now), Net16Decision(s'.log, row.src, now);
    GuardedAdds(s.raw, mid, Host(row.src), true, one, now);
    GuardedAdds(mid, s'.raw, NetworkOf(row.src, 16), false, two, now);
    forall d | d in s.raw
      ensures exists a :: Contains(c, a) && !Contains(d, a)
    {
      assert d in mid && !Matches(c, d, false);
      WithinIsSubset(c, d);
    }
  }

  /** One test adds at most the tested block, and that only when no row matches it. */
  lemma GuardedAdds(raw: Table, raw': Table, net: Block, exact: bool, interval: Option<nat>, now: int)
    requires Guarded(raw, raw', net, exact, interval, now)
    ensures raw.Keys <= raw'.Keys <= raw.Keys + {net}
    ensures net in raw' && net !in raw ==> forall d :: d in raw ==> !Matches(net, d, exact)
  {
    hide Within;
  }

  /** A row changed by the first test is unexpired at the second, which leaves it alone. */
  lemma ChangesCompose(raw: Table, mid: Table, raw': Table, c: Block, net: Block, one: Option<nat>,
                       net': Block, two: Option<nat>, now: int)
    requires one.Some? ==> one.value > 0
    requires c in raw' && (c in raw ==> c in mid)
    requires c in mid ==> Untouched(raw, mid, c) || Changed(raw, mid, c, net, one, now)
    requires Untouched(mid, raw', c) || Changed(mid, raw', c, net', two, now)
    ensures Untouched(raw, raw', c) || Changed(raw, raw', c, net, one, now) || Changed(raw, raw', c, net', two, now)
  {
    hide Within;
  }

  /** The decisions are the shortest intervals of the limits that are met; a view without a row for the
      source means none is met. */
  lemma DecisionsAreShortest(log: seq<LogRow>, src: Address, now: int)
    ensures ShortestMet(ADDRESS_LIMITS, log, Host(src), now, AddressDecision(log, src, now))
    ensures ShortestMet(NET16_LIMITS, log, NetworkOf(src, 16), now, Net16Decision(log, src, now))
    ensures ShortestMet(NET24_LIMITS, log, NetworkOf(src, 24), now, Net24Decision(log, src, now))
  {
    hide Attempts, CountIn, NetworkOf, Host, ShortestMet;
    ViewOrNothing(log, 16, now, src);
    ViewOrNothing(log, 24, now, src);
    AddressOrNothing(log, now, src);
    ColumnsAreAttempts(log, Host(src), now);
    ColumnsAreAttempts(log, NetworkOf(src, 16), now);
    ColumnsAreAttempts(log, NetworkOf(src, 24), now);
    ShortestOf(ADDRESS_LIMITS, log, Host(src), now, AddressDecision(log, src, now));
    ShortestOf(NET16_LIMITS, log, NetworkOf(src, 16), now, Net16Decision(log, src, now));
    ShortestOf(NET24_LIMITS, log, NetworkOf(src, 24), now, Net24Decision(log, src, now));
  }

  /** With the limits in order of window and interval, the first one met is the shortest. */
  lemma ShortestOf(limits: seq<Limit>, log: seq<LogRow>, d: Block, now: int, decision: Option<nat>)
    requires |limits| == 4 && limits[0].interval <= limits[1].interval <= limits[2].interval <= limits[3].interval
    requires decision ==
      if Met(limits[0], log, d, now) then Some(limits[0].interval)
      else if Met(limits[1], log, d, now) then Some(limits[1].interval)
      else if Met(limits[2], log, d, now) then Some(limits[2].interval)
      else if Met(limits[3], log, d, now) then Some(limits[3].interval)
      else None
    ensures ShortestMet(limits, log, d, now, decision)
  {
    hide Met;
  }

  /** A view without a row for an address's network means that nothing was counted in any window. */
  lemma ViewOrNothing(log: seq<LogRow>, len: nat, now: int, a: Address)
    requires len <= 32
    ensures NetworkOf(a, len) !in NetCounts(log, len, now) ==>
      forall w :: w <= DAY ==> CountIn(log, NetworkOf(a, len), Window(now, w)) == 0
  {
    OneRowPerAddress(log, len, now, a, NetworkOf(a, len));
    if NetworkOf(a, len) !in NetCounts(log, len, now) {
      forall w | w <= DAY
        ensures CountIn(log, NetworkOf(a, len), Window(now, w)) == 0
      {
        NothingCounted(log, NetworkOf(a, len), now, w);
      }
    }
  }

  lemma AddressOrNothing(log: seq<LogRow>, now: int, a: Address)
    ensures a !in AddressCounts(log, now) ==> forall w :: w <= DAY ==> CountIn(log, Host(a), Window(now, w)) == 0
  {
    if a !in AddressCounts(log, now) {
      forall e | e in log && Recent(e, now, DAY)
        ensures !Contains(Host(a), e.src)
      {
        ContainsIsRange(Host(a), e.src);
        assert e.src != a;
      }
      forall w | w <= DAY
        ensures CountIn(log, Host(a), Window(now, w)) == 0
      {
        NothingCounted(log, Host(a), now, w);
      }
    }
  }

  lemma {:induction false} NothingCounted(log: seq<LogRow>, d: Block, now: int, w: int)
    requires w <= DAY && forall e :: e in log && Recent(e, now, DAY) ==> !Contains(d, e.src)
    ensures CountIn(log, d, Window(now, w)) == 0
  {
    if log != [] { NothingCounted(log[..|log| - 1], d, now, w); }
  }

  /** Cleanup leaves no expired row and is invisible: at every instant from then on the same addresses are
      covered, and so is the agent's view. */
  lemma CleanupInvisible(raw: Table, now: int, rules: set<Rule>, t: int, a: Address)
    requires now <= t
    ensures forall c :: c in Cleaned(raw, now) ==> !Expired(raw[c], now)
    ensures RawCovered(Cleaned(raw, now), t, a) <==> RawCovered(raw, t, a)
    ensures Covered(BlockNow(Cleaned(raw, now), rules, t), a) <==> Covered(BlockNow(raw, rules, t), a)
  {
    BlockNowMeans(raw, rules, t, a);
    BlockNowMeans(Cleaned(raw, now), rules, t, a);
    hide Contains, BlockNow, Covered;
    forall c | c in raw && Active(raw[c], t)
      ensures c in Cleaned(raw, now)
    {
    }
  }

  /** An insert that meets no threshold leaves the table alone. */
  lemma QuietInsert(s: State, s': State, row: LogRow, now: int)
    requires Next(s, s', Insert(row), now)
    requires AddressDecision(s'.log, row.src, now) == None && Net16Decision(s'.log, row.src, now) == None
    ensures s'.raw == s.raw
  {
    var mid := BetweenTests(s, s', row, now);
  }

  // ---------------------------------------------------------------- from when a row blocks

  predicate StartedBy(r: Row, now: int) {
    r.start.None? || r.start.value <= now
  }

  /** A row with some time left is active from now until its end exactly when it does not start later. */
  lemma InForceIff(r: Row, now: int)
    requires !Expired(r, now + 1)
    ensures (forall t :: now < t && !Expired(r, t) ==> Active(r, t)) <==> StartedBy(r, now)
  {
    assert Active(r, now + 1) ==> StartedBy(r, now);
  }

  /** The row that a met threshold leaves: it holds the tested block, it is the tested address itself in the
      address test, it has not ended, and it keeps the start date it had or starts now. */
  lemma GuardedRow(raw: Table, raw': Table, net: Block, exact: bool, interval: Option<nat>, now: int) returns (c: Block)
    requires Guarded(raw, raw', net, exact, interval, now) && interval.Some? && interval.value > 1
    ensures c in raw' && Within(net, c) && (exact ==> c == net) && !Expired(raw'[c], now)
    ensures if c in raw then raw'[c].start == raw[c].start else raw'[c].start == Some(now)
  {
    WithinReflexive(net);
    hide Within;
    assert Matches(net, net, exact);
    var found: Option<Block> :| MayFind(raw, net, exact, found) && raw' == Extend(raw, net, found, now, interval.value);
    c := if found.Some? then found.value else net;
  }

  /** After an insert that meets an address threshold the address has a row that has not ended, and it blocks
      from now on exactly when the table did not already hold a row for that address that starts later. */
  lemma AddressInForceIff(s: State, s': State, row: LogRow, now: int)
    requires Next(s, s', Insert(row), now) && AddressDecision(s'.log, row.src, now).Some?
    ensures Host(row.src) in s'.raw && !Expired(s'.raw[Host(row.src)], now)
    ensures StartedBy(s'.raw[Host(row.src)], now) <==>
      (Host(row.src) in s.raw ==> StartedBy(s.raw[Host(row.src)], now))
  {
    hide AddressDecision, Net16Decision, Guarded, Filtered, Within;
    var mid := BetweenTests(s, s', row, now);
    var one, two := AddressDecision(s'.log, row.src, now), Net16Decision(s'.log, row.src, now);
    DecisionsPositive(s'.log, row.src, now);
    var c := GuardedRow(s.raw, mid, Host(row.src), true, one, now);
    if two.Some? {
      GuardedKeeps(mid, s'.raw, NetworkOf(row.src, 16), false, two, now);
    }
  }

  /** After one that meets a /16 threshold some row that has not ended holds the /16, and it blocks from now on
      exactly when it is new or did not start later before. */
  lemma Net16InForceIff(s: State, s': State, row: LogRow, now: int) returns (c: Block)
    requires Next(s, s', Insert(row), now) && Net16Decision(s'.log, row.src, now).Some?
    ensures c in s'.raw && Within(NetworkOf(row.src, 16), c) && !Expired(s'.raw[c], now)
    ensures StartedBy(s'.raw[c], now) <==> (c in s.raw ==> StartedBy(s.raw[c], now))
  {
    hide AddressDecision, Net16Decision, Filtered, Within;
    var mid := BetweenTests(s, s', row, now);
    var one, two := AddressDecision(s'.log, row.src, now), Net16Decision(s'.log, row.src, now);
    DecisionsPositive(s'.log, row.src, now);
    c := GuardedRow(mid, s'.raw, NetworkOf(row.src, 16), false, two, now);
    GuardedKeeps(s.raw, mid, Host(row.src), true, one, now);
    if c in mid && c !in s.raw {
      NewRowStartsNow(s.raw, mid, Host(row.src), true, one, now, c);
    }
  }

  lemma NewRowStartsNow(raw: Table, raw': Table, net: Block, exact: bool, interval: Option<nat>, now: int, c: Block)
    requires Guarded(raw, raw', net, exact, interval, now) && c in raw' && c !in raw
    ensures raw'[c].start == Some(now)
  {
  }

  /** The only row starts in an hour: a met threshold leaves it as it is, and the address is not blocked. */
  lemma LaterStartDoesNotBlock(a: Address, raw': Table, interval: nat, now: int)
    requires Guarded(map[Host(a) := Row(Some(now + HOUR), None)], raw', Host(a), true, Some(interval), now)
    ensures raw' == map[Host(a) := Row(Some(now + HOUR), None)] && !RawCovered(raw', now + 1, a)
  {
    var raw: Table := map[Host(a) := Row(Some(now + HOUR), None)];
    hide Within, Contains;
    var found :| MayFind(raw, Host(a), true, found) && raw' == Extend(raw, Host(a), found, now, interval);
    assert Host(a) in raw && Matches(Host(a), Host(a), true);
    assert found == Some(Host(a));
  }

  // ---------------------------------------------------------------- what the comments promise

  /** The table as the trigger's comments have it: the end date of an existing tuple is extended. */
  function ExtendDocumented(raw: Table, net: Block, found: Option<Block>, now: int, interval: nat): Table
    requires found.Some? ==> found.value in raw
  {
    match found
    case None => raw[net := Row(Some(now), Some(now + interval))]
    case Some(c) => raw[c := raw[c].(end := Some(now + interval))]
  }

  /** The code does that exactly when there is no tuple, or it has expired, or it ends then anyway. */
  lemma ExtendDocumentedIff(raw: Table, net: Block, found: Option<Block>, now: int, interval: nat)
    requires found.Some? ==> found.value in raw
    ensures Extend(raw, net, found, now, interval) == ExtendDocumented(raw, net, found, now, interval) <==>
      found.None? || Expired(raw[found.value], now) || raw[found.value].end == Some(now + interval)
  {
    if found.Some? {
      var c := found.value;
      assert ExtendDocumented(raw, net, found, now, interval)[c].end == Some(now + interval);
      if raw[c].end == Some(now + interval) {
        assert raw[c := raw[c].(end := Some(now + interval))] == raw;
      }
    }
  }

  /** A block that ends in a second, and a week's block decided now: it still ends in a second. */
  lemma ExtensionWithheld(a: Address, now: int)
    ensures var raw: Table := map[Host(a) := Row(Some(now), Some(now + 1))];
      && Extend(raw, Host(a), Some(Host(a)), now, WEEK)[Host(a)].end == Some(now + 1)
      && ExtendDocumented(raw, Host(a), Some(Host(a)), now, WEEK)[Host(a)].end == Some(now + WEEK)
  {
  }

  /** One attempt from each of the first `n` addresses of 0.0.0.0/24. */
  function Spread(n: nat): (log: seq<LogRow>)
    requires n <= 40
    ensures |log| == n
  {
    if n == 0 then [] else Spread(n - 1) + [Attempt(n - 1)]
  }

  function Attempt(i: nat): LogRow
    requires i < 40
  {
    Pow2Monotone(6, 32);
    LogRow(Addr(V4, i), Auth, 0)
  }

  /** All of them are in the /24, and in no window more than one is from any one address. */
  lemma {:induction false} SpreadCounts(n: nat, a: Address, window: int)
    requires n <= 40 && window >= 0
    ensures CountIn(Spread(n), NetworkOf(Attempt(39).src, 24), Window(0, window)) == n
    ensures CountIn(Spread(n), NetworkOf(Attempt(39).src, 16), Window(0, window)) <= n
    ensures CountIn(Spread(n), Host(a), Window(0, window)) <= (if a.family.V4? && a.value < n then 1 else 0)
  {
    if n > 0 {
      SpreadCounts(n - 1, a, window);
      assert Spread(n)[..n - 1] == Spread(n - 1);
      AttemptInNet(n - 1);
      HostHolds(a, Attempt(n - 1).src);
      hide Contains, NetworkOf, Host;
    }
  }

  lemma HostHolds(a: Address, b: Address)
    ensures Contains(Host(a), b) <==> a == b
  {
    ContainsIsRange(Host(a), b);
  }

  lemma AttemptInNet(i: nat)
    requires i < 40
    ensures Contains(NetworkOf(Attempt(39).src, 24), Attempt(i).src)
  {
    assert Pow2(3) == 8 && Pow2(8) == 256;
    ShiftRightBound(i, 0, 8);
    ShiftRightBound(39, 0, 8);
    NetworkOfUnique(Attempt(39).src, 24, NetworkOf(Attempt(39).src, 24));
    NetworkOfUnique(Attempt(i).src, 24, NetworkOf(Attempt(i).src, 24));
  }

  /** How the attempts of the spread count in the four windows. */
  lemma SpreadAttempts(src: Address, window: int)
    requires src == Attempt(39).src && window >= 0
    ensures |Attempts(Spread(40), NetworkOf(src, 24), 0 - window)| == 40
    ensures |Attempts(Spread(40), NetworkOf(src, 16), 0 - window)| <= 40
    ensures |Attempts(Spread(40), Host(src), 0 - window)| <= 1
  {
    hide Attempt, Attempts, Spread, NetworkOf, CountIn, Host;
    SpreadCounts(40, src, window);
    CountIsAttempts(Spread(40), NetworkOf(src, 24), 0, window);
    CountIsAttempts(Spread(40), NetworkOf(src, 16), 0, window);
    CountIsAttempts(Spread(40), Host(src), 0, window);
  }

  lemma SpreadMeets(src: Address)
    requires src == Attempt(39).src
    ensures Met(NET24_LIMITS[0], Spread(40), NetworkOf(src, 24), 0)
    ensures forall i :: 0 <= i < 4 ==> !Met(ADDRESS_LIMITS[i], Spread(40), Host(src), 0)
    ensures forall i :: 0 <= i < 4 ==> !Met(NET16_LIMITS[i], Spread(40), NetworkOf(src, 16), 0)
  {
    hide Attempt, Attempts, Spread, NetworkOf, CountIn, Host;
    SpreadAttempts(src, 300);
    SpreadAttempts(src, 900);
    SpreadAttempts(src, 3600);
    SpreadAttempts(src, 86400);
  }

  /** Forty attempts in five minutes from forty addresses of a /24 meet its first limit, and no table changes. */
  lemma Net24LimitIgnored(raw: Table, s': State)
    requires Next(State(Spread(39), raw), s', Insert(Attempt(39)), 0)
    ensures Met(NET24_LIMITS[0], s'.log, NetworkOf(Attempt(39).src, 24), 0)
    ensures s'.raw == raw
  {
    hide AddressDecision, Net16Decision, Net24Decision, Filtered, Attempt, Spread, NetworkOf, Met, Host;
    var src := Attempt(39).src;
    SpreadGrows();
    SpreadMeets(src);
    DecisionsAreShortest(s'.log, src, 0);
    QuietInsert(State(Spread(39), raw), s', Attempt(39), 0);
  }

  lemma SpreadGrows()
    ensures Spread(40) == Spread(39) + [Attempt(39)]
  {
  }

  // ---------------------------------------------------------------- runs

  datatype Event = Event(op: Op, now: int)

  /** A run: states joined by calls at instants that never go back. */
  ghost predicate Run(states: seq<State>, events: seq<Event>) {
    |states| == |events| + 1 &&
    (forall i :: 0 <= i < |events| ==> Next(states[i], states[i + 1], events[i].op, events[i].now)) &&
    (forall i, j :: 0 <= i < j < |events| ==> events[i].now <= events[j].now)
  }

  ghost predicate StartsBy(raw: Table, now: int) {
    forall c :: c in raw ==> StartedBy(raw[c], now)
  }

  lemma NextStarts(s: State, s': State, op: Op, before: int, now: int)
    requires Next(s, s', op, now) && StartsBy(s.raw, before) && before <= now
    ensures StartsBy(s'.raw, now)
  {
    if op.Insert? {
      hide AddressDecision, Net16Decision, Filtered, Within;
      forall c | c in s'.raw
        ensures StartedBy(s'.raw[c], now)
      {
        InsertChanges(s, s', op.row, now, c);
      }
    }
  }

  /** In a run from a table without later start dates there is never one. */
  lemma {:induction false} RunStarts(states: seq<State>, events: seq<Event>, i: nat)
    requires Run(states, events) && i < |events| && StartsBy(states[0].raw, events[0].now)
    ensures StartsBy(states[i].raw, events[i].now) && StartsBy(states[i + 1].raw, events[i].now)
  {
    hide Next, StartsBy;
    if i > 0 {
      RunStarts(states, events, i - 1);
      NextStarts(states[i - 1], states[i], events[i - 1].op, events[i - 1].now, events[i - 1].now);
      LaterStarts(states[i].raw, events[i - 1].now, events[i].now);
    }
    NextStarts(states[i], states[i + 1], events[i].op, events[i].now, events[i].now);
  }

  lemma LaterStarts(raw: Table, before: int, now: int)
    requires StartsBy(raw, before) && before <= now
    ensures StartsBy(raw, now)
  {
  }

  /** Some row covers the whole block at every instant after `now` until the row's end, which is yet to come. */
  ghost predicate BlockedFrom(raw: Table, net: Block, now: int) {
    exists c :: c in raw && !Expired(raw[c], now) &&
      forall t, a :: now < t && !Expired(raw[c], t) && Contains(net, a) ==> RawCovered(raw, t, a)
  }

  lemma StartedRowBlocks(raw: Table, net: Block, c: Block, now: int)
    requires c in raw && Within(net, c) && !Expired(raw[c], now) && StartedBy(raw[c], now)
    ensures BlockedFrom(raw, net, now)
  {
    forall t, a | now < t && !Expired(raw[c], t) && Contains(net, a)
      ensures RawCovered(raw, t, a)
    {
      WithinTransitive(Host(a), net, c);
      assert Active(raw[c], t) && Contains(c, a);
    }
  }

  /** In a run from the empty table, an insert that meets a threshold has the address, or the whole /16,
      covered at every instant from then on until the end of a row that has not ended. */
  lemma ThresholdCovers(states: seq<State>, events: seq<Event>, i: nat, row: LogRow)
    requires Run(states, events) && i < |events| && events[i].op == Insert(row) && states[0].raw == map[]
    ensures var log, now := states[i + 1].log, events[i].now;
      && (AddressDecision(log, row.src, now).Some? ==> BlockedFrom(states[i + 1].raw, Host(row.src), now))
      && (Net16Decision(log, row.src, now).Some? ==> BlockedFrom(states[i + 1].raw, NetworkOf(row.src, 16), now))
  {
    hide AddressDecision, Net16Decision, Filtered, Within, BlockedFrom;
    var s, s', now := states[i], states[i + 1], events[i].now;
    RunStarts(states, events, i);
    if AddressDecision(s'.log, row.src, now).Some? {
      AddressInForceIff(s, s', row, now);
      WithinReflexive(Host(row.src));
      StartedRowBlocks(s'.raw, Host(row.src), Host(row.src), now);
    }
    if Net16Decision(s'.log, row.src, now).Some? {
      var c := Net16InForceIff(s, s', row, now);
      StartedRowBlocks(s'.raw, NetworkOf(row.src, 16), c, now);
    }
  }

  lemma KeptCompose(raw: Table, mid: Table, raw': Table, before: int, now: int)
    requires Kept(raw, mid, before) && Kept(mid, raw', now) && NewRowsLast(mid, raw', now) && before <= now
    ensures Kept(raw, raw', now)
  {
  }

  lemma {:induction false} RunKeeps(states: seq<State>, events: seq<Event>, i: nat, j: nat)
    requires Run(states, events) && i < j <= |events|
    ensures Kept(states[i].raw, states[j].raw, events[j - 1].now)
  {
    hide Next, Kept, NewRowsLast;
    var last := events[j - 1];
    NextKeeps(states[j - 1], states[j], last.op, last.now);
    if i < j - 1 {
      RunKeeps(states, events, i, j - 1);
      KeptCompose(states[i].raw, states[j - 1].raw, states[j].raw, events[j - 2].now, last.now);
    }
  }

  /** Over a whole run no call takes away coverage: what an earlier table covers at an instant no earlier
      than the last call, the later table covers too. */
  lemma CoverageNeverLost(states: seq<State>, events: seq<Event>, i: nat, j: nat, t: int, a: Address)
    requires Run(states, events) && i < j <= |events| && events[j - 1].now <= t
    requires RawCovered(states[i].raw, t, a)
    ensures RawCovered(states[j].raw, t, a)
  {
    RunKeeps(states, events, i, j);
    var raw, raw' := states[i].raw, states[j].raw;
    hide Contains, Run;
    var c :| c in raw && Active(raw[c], t) && Contains(c, a);
    assert c in raw' && Active(raw'[c], t);
  }

  /** The end date of a block that both tables hold never moves earlier, even when the row was deleted
      and inserted again in between. */
  lemma EndNeverEarlier(states: seq<State>, events: seq<Event>, i: nat, j: nat, c: Block)
    requires Run(states, events) && i < j <= |events|
    requires c in states[i].raw && c in states[j].raw
    ensures NoEarlier(states[j].raw[c].end, states[i].raw[c].end)
  {
    RunKeeps(states, events, i, j);
  }

  /** Neither does the agent's view lose an address, whatever the static rules, as long as they stay. */
  lemma BlockNowNeverLoses(states: seq<State>, events: seq<Event>, i: nat, j: nat, rules: set<Rule>, t: int, a: Address)
    requires Run(states, events) && i < j <= |events| && events[j - 1].now <= t
    requires Covered(BlockNow(states[i].raw, rules, t), a)
    ensures Covered(BlockNow(states[j].raw, rules, t), a)
  {
    RunKeeps(states, events, i, j);
    var raw, raw' := states[i].raw, states[j].raw;
    BlockNowMeans(raw, rules, t, a);
    BlockNowMeans(raw', rules, t, a);
    hide Contains, Run, BlockNow, Covered;
    if c :| c in raw && Active(raw[c], t) && !IsStatic(rules, c, Allow) && Contains(c, a) {
      assert c in raw' && Active(raw'[c], t);
    }
  }
}
