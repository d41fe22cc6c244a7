/** The counting views over the event log (pam-daemon/psql-db.schema): authentication attempts per address
    and per subnet in four recent windows. */
module LogCounts {
  import opened Options
  import opened Cidr

  datatype LogEvent = Unknown | Auth | OpenSession | CloseSession

  /** A row of pam.inet_log, with the columns the views use. */
  datatype LogRow = LogRow(src: Address, event: LogEvent, date: int)

  const FIVE := 300
  const FIFTEEN := 900
  const HOUR := 3600
  const DAY := 86400

  /** An authentication attempt dated in the last `window` seconds. */
  predicate Recent(e: LogRow, now: int, window: int) {
    e.event == Auth && e.date >= now - window
  }

  predicate AllRows(e: LogRow) {
    true
  }

  function Window(now: int, window: int): LogRow -> bool {
    (e: LogRow) => Recent(e, now, window)
  }

  /** How many selected rows came from the block. */
  function CountIn(log: seq<LogRow>, d: Block, sel: LogRow -> bool): nat {
    if log == [] then 0
    else
      var n := |log| - 1;
      CountIn(log[..n], d, sel) + (if sel(log[n]) && Contains(d, log[n].src) then 1 else 0)
  }

  datatype Counts = Counts(lastFive: nat, lastFifteen: nat, lastHour: nat, lastDay: nat)

  /** The prefix length fits the addresses of the selected rows; PostgreSQL refuses to mask any other. */
  predicate PrefixFits(log: seq<LogRow>, len: nat, sel: LogRow -> bool) {
    forall e :: e in log && sel(e) ==> len <= Width(e.src.family)
  }

  /** The networks of one prefix length that hold a selected row: the groups of a view. */
  function Networks(log: seq<LogRow>, len: nat, sel: LogRow -> bool): set<Block>
    requires PrefixFits(log, len, sel)
  {
    set e | e in log && sel(e) :: NetworkOf(e.src, len)
  }

  /** agg_nets_8, agg_nets_16, agg_nets_24 and agg_nets_view(len): all rows, grouped by network. */
  function AggNets(log: seq<LogRow>, len: nat): map<Block, nat>
    requires PrefixFits(log, len, AllRows)
  {
    map d | d in Networks(log, len, AllRows) :: CountIn(log, d, AllRows)
  }

  function CountsOf(log: seq<LogRow>, d: Block, now: int): Counts {
    Counts(CountIn(log, d, Window(now, FIVE)), CountIn(log, d, Window(now, FIFTEEN)),
           CountIn(log, d, Window(now, HOUR)), CountIn(log, d, Window(now, DAY)))
  }

  /** nets_16_counts_per_interval and nets_24_counts_per_interval, by prefix length. */
  function NetCounts(log: seq<LogRow>, len: nat, now: int): map<Block, Counts>
    requires PrefixFits(log, len, Window(now, DAY))
  {
    map d | d in Networks(log, len, Window(now, DAY)) :: CountsOf(log, d, now)
  }

  /** src_ipaddr_counts_per_interval. */
  function AddressCounts(log: seq<LogRow>, now: int): map<Address, Counts> {
    var seen := set e | e in log && Recent(e, now, DAY) :: e.src;
    map a: Address | a in seen :: CountsOf(log, Host(a), now)
  }

  // ---------------------------------------------------------------- what is counted

  /** The places of the log that hold an authentication attempt from the block dated since then. */
  function Attempts(log: seq<LogRow>, d: Block, since: int): set<int> {
    set i | 0 <= i < |log| && log[i].event == Auth && since <= log[i].date && Contains(d, log[i].src)
  }

  /** The places of the log that hold a row from the block. */
  function RowsFrom(log: seq<LogRow>, d: Block): set<int> {
    set i | 0 <= i < |log| && Contains(d, log[i].src)
  }

  /** The places of the log that hold a selected row from the block. */
  function Places(log: seq<LogRow>, d: Block, sel: LogRow -> bool): set<int> {
    set i | 0 <= i < |log| && sel(log[i]) && Contains(d, log[i].src)
  }

  lemma {:induction false} CountIsPlaces(log: seq<LogRow>, d: Block, sel: LogRow -> bool)
    ensures CountIn(log, d, sel) == |Places(log, d, sel)|
  {
    hide Contains;
    if log != [] {
      var n := |log| - 1;
      CountIsPlaces(log[..n], d, sel);
      if sel(log[n]) && Contains(d, log[n].src) {
        assert Places(log, d, sel) == Places(log[..n], d, sel) + {n};
      } else {
        assert Places(log, d, sel) == Places(log[..n], d, sel);
      }
    }
  }

  /** A count column counts attempts: authentications only, from the window's start on, from the block. */
  lemma CountIsAttempts(log: seq<LogRow>, d: Block, now: int, window: int)
    ensures CountIn(log, d, Window(now, window)) == |Attempts(log, d, now - window)|
  {
    hide Contains;
    CountIsPlaces(log, d, Window(now, window));
    assert Places(log, d, Window(now, window)) == Attempts(log, d, now - window);
  }

  /** The four columns of a view row are the attempts of the last 5 minutes, 15 minutes, hour and day. */
  lemma ColumnsAreAttempts(log: seq<LogRow>, d: Block, now: int)
    ensures var c := CountsOf(log, d, now);
      && c.lastFive == |Attempts(log, d, now - 300)| && c.lastFifteen == |Attempts(log, d, now - 900)|
      && c.lastHour == |Attempts(log, d, now - 3600)| && c.lastDay == |Attempts(log, d, now - 86400)|
  {
    hide Attempts, CountIn;
    CountIsAttempts(log, d, now, FIVE);
    CountIsAttempts(log, d, now, FIFTEEN);
    CountIsAttempts(log, d, now, HOUR);
    CountIsAttempts(log, d, now, DAY);
  }

  lemma SameCount(log: seq<LogRow>, row: LogRow, d: Block, now: int, window: int)
    requires row.event != Auth || row.date < now - window
    ensures CountIn(log + [row], d, Window(now, window)) == CountIn(log, d, Window(now, window))
  {
    assert (log + [row])[..|log|] == log;
  }

  lemma SameCounts(log: seq<LogRow>, row: LogRow, d: Block, now: int)
    requires row.event != Auth || row.date < now - 86400
    ensures CountsOf(log + [row], d, now) == CountsOf(log, d, now)
  {
    hide CountIn;
    SameCount(log, row, d, now, FIVE);
    SameCount(log, row, d, now, FIFTEEN);
    SameCount(log, row, d, now, HOUR);
    SameCount(log, row, d, now, DAY);
  }

  /** A row that is no authentication attempt, or one of more than a day ago, changes no counting view. */
  lemma OtherRowsNotCounted(log: seq<LogRow>, row: LogRow, len: nat, now: int)
    requires row.event != Auth || row.date < now - 86400
    requires PrefixFits(log, len, Window(now, DAY))
    ensures AddressCounts(log + [row], now) == AddressCounts(log, now)
    ensures PrefixFits(log + [row], len, Window(now, DAY)) && NetCounts(log + [row], len, now) == NetCounts(log, len, now)
  {
    hide CountsOf, NetworkOf, Host;
    forall d: Block
      ensures CountsOf(log + [row], d, now) == CountsOf(log, d, now)
    {
      SameCounts(log, row, d, now);
    }
    assert !Recent(row, now, DAY);
    assert Networks(log + [row], len, Window(now, DAY)) == Networks(log, len, Window(now, DAY));
    assert (set e | e in log + [row] && Recent(e, now, DAY) :: e.src) == (set e | e in log && Recent(e, now, DAY) :: e.src);
  }

  /** The windows nest, so their counts do. */
  lemma {:induction false} CountsNest(log: seq<LogRow>, d: Block, now: int, w: int, v: int)
    requires w <= v
    ensures CountIn(log, d, Window(now, w)) <= CountIn(log, d, Window(now, v)) <= |log|
  {
    if log != [] {
      CountsNest(log[..|log| - 1], d, now, w, v);
    }
  }

  lemma ViewRowsNest(log: seq<LogRow>, d: Block, now: int)
    ensures var c := CountsOf(log, d, now); c.lastFive <= c.lastFifteen <= c.lastHour <= c.lastDay
  {
    CountsNest(log, d, now, FIVE, FIFTEEN);
    CountsNest(log, d, now, FIFTEEN, HOUR);
    CountsNest(log, d, now, HOUR, DAY);
  }

  /** At most one row of a fixed-prefix view holds an address, and it is the address's own network. */
  lemma OneRowPerAddress(log: seq<LogRow>, len: nat, now: int, a: Address, d: Block)
    requires PrefixFits(log, len, Window(now, DAY)) && len <= Width(a.family)
    ensures d in NetCounts(log, len, now) && Contains(d, a) ==> d == NetworkOf(a, len)
    ensures NetworkOf(a, len) in NetCounts(log, len, now) <==>
      exists e :: e in log && Recent(e, now, DAY) && Contains(NetworkOf(a, len), e.src)
  {
    forall e | e in log && Recent(e, now, DAY)
      ensures Contains(NetworkOf(a, len), e.src) <==> NetworkOf(a, len) == NetworkOf(e.src, len)
      ensures Contains(NetworkOf(e.src, len), a) <==> NetworkOf(a, len) == NetworkOf(e.src, len)
    {
      SameNetwork(a, e.src, len);
      SameNetwork(e.src, a, len);
    }
  }

  lemma SameNetwork(a: Address, b: Address, len: nat)
    requires len <= Width(a.family) && len <= Width(b.family)
    ensures Contains(NetworkOf(a, len), b) <==> NetworkOf(a, len) == NetworkOf(b, len)
  {
    if a.family == b.family {
      NetworkOfUnique(b, len, NetworkOf(a, len));
    }
  }

  /** A row in the longer-prefix view implies one in the shorter-prefix view for the same address. */
  lemma LongerRowImpliesShorter(log: seq<LogRow>, short: nat, long: nat, now: int, a: Address)
    requires short <= long <= Width(a.family) && PrefixFits(log, long, Window(now, DAY))
    requires NetworkOf(a, long) in NetCounts(log, long, now)
    ensures NetworkOf(a, short) in NetCounts(log, short, now)
  {
    OneRowPerAddress(log, long, now, a, NetworkOf(a, long));
    OneRowPerAddress(log, short, now, a, NetworkOf(a, short));
    var e :| e in log && Recent(e, now, DAY) && Contains(NetworkOf(a, long), e.src);
    LongerIsInside(a, short, long);
    WithinTransitive(Host(e.src), NetworkOf(a, long), NetworkOf(a, short));
  }

  lemma LongerIsInside(a: Address, short: nat, long: nat)
    requires short <= long <= Width(a.family)
    ensures Within(NetworkOf(a, long), NetworkOf(a, short))
  {
    NetworkOfUnique(a, long, NetworkOf(a, long));
    NetworkOfUnique(a, short, NetworkOf(a, short));
    SharedPrefix(NetworkOf(a, long), NetworkOf(a, short), a);
  }

  // ---------------------------------------------------------------- conservation

  ghost function Pick(s: set<Block>): (d: Block)
    requires s != {}
    ensures d in s
  {
    var d :| d in s; d
  }

  /** The sum of a view column over a set of rows. */
  ghost function SumIn(nets: set<Block>, log: seq<LogRow>, sel: LogRow -> bool): nat {
    if nets == {} then 0
    else CountIn(log, Pick(nets), sel) + SumIn(nets - {Pick(nets)}, log, sel)
  }

  /** One more log row adds one to the sum exactly when it is selected and some listed network, all of
      one prefix length, holds it. */
  lemma {:induction false} SumStep(nets: set<Block>, log: seq<LogRow>, e: LogRow, len: nat, sel: LogRow -> bool)
    requires sel(e) ==> len <= Width(e.src.family)
    requires forall d :: d in nets ==> d.len == len
    ensures SumIn(nets, log + [e], sel) ==
      SumIn(nets, log, sel) + (if sel(e) && NetworkOf(e.src, len) in nets then 1 else 0)
  {
    if nets != {} {
      var d := Pick(nets);
      SumStep(nets - {d}, log, e, len, sel);
      assert (log + [e])[..|log|] == log;
      if sel(e) { NetworkOfUnique(e.src, len, d); }
    }
  }

  lemma {:induction false} SumEmpty(nets: set<Block>, sel: LogRow -> bool)
    ensures SumIn(nets, [], sel) == 0
  {
    if nets != {} { SumEmpty(nets - {Pick(nets)}, sel); }
  }

  /** Any set of networks of one prefix length inside `d` that misses no network of a selected row in
      `d` sums to d's own count. */
  lemma {:induction false} Conserved(nets: set<Block>, log: seq<LogRow>, d: Block, len: nat, sel: LogRow -> bool)
    requires d.len <= len && PrefixFits(log, len, sel)
    requires forall n :: n in nets ==> n.len == len && Within(n, d)
    requires forall e :: e in log && sel(e) && Contains(d, e.src) ==> NetworkOf(e.src, len) in nets
    ensures CountIn(log, d, sel) == SumIn(nets, log, sel)
  {
    if log == [] {
      SumEmpty(nets, sel);
    } else {
      var front, e := log[..|log| - 1], log[|log| - 1];
      assert log == front + [e];
      Conserved(nets, front, d, len, sel);
      SumStep(nets, front, e, len, sel);
      if sel(e) {
        var net := NetworkOf(e.src, len);
        NetworkOfUnique(e.src, len, net);
        if net in nets {
          WithinTransitive(Host(e.src), net, d);
        }
      }
    }
  }

  /** Grouping by a longer prefix and adding up inside a network gives the network's own count, for
      every count column whose rows the grouping sees. */
  lemma GroupingConserves(log: seq<LogRow>, d: Block, len: nat, group: LogRow -> bool, sel: LogRow -> bool)
    requires d.len <= len && PrefixFits(log, len, group) && forall e :: sel(e) ==> group(e)
    ensures CountIn(log, d, sel) == SumIn((set n | n in Networks(log, len, group) && Within(n, d)), log, sel)
  {
    var nets := set n | n in Networks(log, len, group) && Within(n, d);
    forall n | n in nets
      ensures n.len == len
    {
      var e :| e in log && group(e) && n == NetworkOf(e.src, len);
    }
    forall e | e in log && sel(e) && Contains(d, e.src)
      ensures NetworkOf(e.src, len) in nets
    {
      var net := NetworkOf(e.src, len);
      NetworkOfUnique(e.src, len, net);
      SharedPrefix(net, d, e.src);
    }
    Conserved(nets, log, d, len, sel);
  }

  /** The sum of a view's values over some of its rows. */
  ghost function SumOf(view: map<Block, nat>, nets: set<Block>): nat
    requires nets <= view.Keys
  {
    if nets == {} then 0 else view[Pick(nets)] + SumOf(view, nets - {Pick(nets)})
  }

  /** One column of a counting view. */
  function Column(view: map<Block, Counts>, col: Counts -> nat): map<Block, nat> {
    map d | d in view :: col(view[d])
  }

  /** The rows of a view inside a block. */
  function Inside(view: map<Block, nat>, d: Block): set<Block> {
    set n | n in view && Within(n, d)
  }

  lemma {:induction false} SumOfIsSumIn(view: map<Block, nat>, nets: set<Block>, log: seq<LogRow>, sel: LogRow -> bool)
    requires nets <= view.Keys && forall n :: n in nets ==> view[n] == CountIn(log, n, sel)
    ensures SumOf(view, nets) == SumIn(nets, log, sel)
  {
    if nets != {} { SumOfIsSumIn(view, nets - {Pick(nets)}, log, sel); }
  }

  /** The places of the selected rows. */
  function Chosen(log: seq<LogRow>, sel: LogRow -> bool): set<int> {
    set i | 0 <= i < |log| && sel(log[i])
  }

  lemma ChosenMore(log: seq<LogRow>, sel: LogRow -> bool)
    requires log != []
    ensures |Chosen(log, sel)| == |Chosen(log[..|log| - 1], sel)| + (if sel(log[|log| - 1]) then 1 else 0)
  {
    var n := |log| - 1;
    if sel(log[n]) {
      assert Chosen(log, sel) == Chosen(log[..n], sel) + {n};
    } else {
      assert Chosen(log, sel) == Chosen(log[..n], sel);
    }
  }

  /** Over all rows of a view the counts add up to the selected rows of the log. */
  lemma {:induction false} AllCounted(nets: set<Block>, log: seq<LogRow>, len: nat, sel: LogRow -> bool)
    requires PrefixFits(log, len, sel) && forall n :: n in nets ==> n.len == len
    requires forall e :: e in log && sel(e) ==> NetworkOf(e.src, len) in nets
    ensures SumIn(nets, log, sel) == |Chosen(log, sel)|
  {
    hide NetworkOf, Chosen, SumIn;
    if log == [] {
      SumEmpty(nets, sel);
      NothingChosen(sel);
    } else {
      var front, e := log[..|log| - 1], log[|log| - 1];
      assert log == front + [e];
      AllCounted(nets, front, len, sel);
      SumStep(nets, front, e, len, sel);
      ChosenMore(log, sel);
    }
  }

  lemma NothingChosen(sel: LogRow -> bool)
    ensures Chosen([], sel) == {}
  {
  }

  lemma NetworksHaveLength(log: seq<LogRow>, len: nat, group: LogRow -> bool)
    requires PrefixFits(log, len, group)
    ensures forall n :: n in Networks(log, len, group) ==> n.len == len
  {
    hide Cleared;
  }

  /** agg_nets_view: each value is the number of rows from its network. */
  lemma AggNetsCounts(log: seq<LogRow>, len: nat, d: Block)
    requires PrefixFits(log, len, AllRows) && d in AggNets(log, len)
    ensures AggNets(log, len)[d] == |RowsFrom(log, d)| > 0
  {
    hide NetworkOf, Contains, CountIn;
    CountIsPlaces(log, d, AllRows);
    assert Places(log, d, AllRows) == RowsFrom(log, d);
    var k := RowOf(log, len, AllRows, d);
    assert k in RowsFrom(log, d);
  }

  /** And the values of one view add up to the log. */
  lemma AggNetsAddUp(log: seq<LogRow>, len: nat)
    requires PrefixFits(log, len, AllRows)
    ensures SumOf(AggNets(log, len), AggNets(log, len).Keys) == |log|
  {
    hide NetworkOf, CountIn, SumOf, SumIn, Chosen;
    var view := AggNets(log, len);
    SumOfIsSumIn(view, view.Keys, log, AllRows);
    NetworksHaveLength(log, len, AllRows);
    AllCounted(view.Keys, log, len, AllRows);
    AllChosen(log);
  }

  lemma {:induction false} AllChosen(log: seq<LogRow>)
    ensures |Chosen(log, AllRows)| == |log|
  {
    hide Chosen;
    if log == [] {
      NothingChosen(AllRows);
    } else {
      var n := |log| - 1;
      AllChosen(log[..n]);
      ChosenMore(log, AllRows);
    }
  }

  /** Some row of the log is behind every row of a view. */
  lemma RowOf(log: seq<LogRow>, len: nat, group: LogRow -> bool, d: Block) returns (k: nat)
    requires PrefixFits(log, len, group) && d in Networks(log, len, group)
    ensures k < |log| && group(log[k]) && Contains(d, log[k].src)
  {
    var e :| e in log && group(e) && d == NetworkOf(e.src, len);
    k :| k < |log| && log[k] == e;
    NetworkOfUnique(e.src, len, d);
  }

  /** Grouping by a longer prefix conserves the values of agg_nets_view: each is the sum of those of the
      longer-prefix rows inside its network. */
  lemma AggNetsConserve(log: seq<LogRow>, short: nat, len: nat, d: Block)
    requires short <= len && PrefixFits(log, len, AllRows)
    ensures PrefixFits(log, short, AllRows)
    ensures d in AggNets(log, short) ==>
      AggNets(log, short)[d] == SumOf(AggNets(log, len), Inside(AggNets(log, len), d))
  {
    hide NetworkOf, Within, CountIn;
    if d in AggNets(log, short) {
      NetworksHaveLength(log, short, AllRows);
      var view := AggNets(log, len);
      GroupingConserves(log, d, len, AllRows, AllRows);
      assert Inside(view, d) == set n | n in Networks(log, len, AllRows) && Within(n, d);
      SumOfIsSumIn(view, Inside(view, d), log, AllRows);
    }
  }

  const COLUMNS: seq<Counts -> nat> := [
    (c: Counts) => c.lastFive, (c: Counts) => c.lastFifteen, (c: Counts) => c.lastHour, (c: Counts) => c.lastDay]
  const WINDOWS := [300, 900, 3600, 86400]

  lemma ColumnIsCount(log: seq<LogRow>, d: Block, now: int, col: nat)
    requires col < 4
    ensures COLUMNS[col](CountsOf(log, d, now)) == CountIn(log, d, Window(now, WINDOWS[col]))
    ensures COLUMNS[col](CountsOf(log, d, now)) == |Attempts(log, d, now - WINDOWS[col])|
  {
    hide CountIn, Attempts;
    ColumnsAreAttempts(log, d, now);
    CountIsAttempts(log, d, now, WINDOWS[col]);
  }

  /** The same for each of the four columns of the counting views, by any prefix length. */
  lemma NetCountsConserve(log: seq<LogRow>, short: nat, len: nat, d: Block, now: int, col: nat)
    requires short <= len && PrefixFits(log, len, Window(now, DAY)) && col < 4
    ensures PrefixFits(log, short, Window(now, DAY))
    ensures d in NetCounts(log, short, now) ==>
      var view := Column(NetCounts(log, len, now), COLUMNS[col]);
      && COLUMNS[col](NetCounts(log, short, now)[d]) == |Attempts(log, d, now - WINDOWS[col])|
      && COLUMNS[col](NetCounts(log, short, now)[d]) == SumOf(view, Inside(view, d))
  {
    hide NetworkOf, Within, CountIn, CountsOf, Attempts;
    if d in NetCounts(log, short, now) {
      NetworksHaveLength(log, short, Window(now, DAY));
      var view, sel := Column(NetCounts(log, len, now), COLUMNS[col]), Window(now, WINDOWS[col]);
      GroupingConserves(log, d, len, Window(now, DAY), sel);
      assert Inside(view, d) == set n | n in Networks(log, len, Window(now, DAY)) && Within(n, d);
      forall n | n in view
        ensures view[n] == CountIn(log, n, sel)
      {
        ColumnIsCount(log, n, now, col);
      }
      SumOfIsSumIn(view, Inside(view, d), log, sel);
      ColumnIsCount(log, d, now, col);
    }
  }

  /** Prefix grouping conserves counts: in every window of at most a day, a network's count is the sum
      over the longer-prefix view's rows inside it; and so it is for the unfiltered totals. */
  lemma PrefixGroupingConserves(log: seq<LogRow>, d: Block, len: nat, now: int, window: int)
    requires d.len <= len && PrefixFits(log, len, AllRows) && window <= DAY
    ensures CountIn(log, d, Window(now, window)) ==
      SumIn((set n | n in NetCounts(log, len, now) && Within(n, d)), log, Window(now, window))
    ensures CountIn(log, d, AllRows) == SumIn((set n | n in AggNets(log, len) && Within(n, d)), log, AllRows)
  {
    GroupingConserves(log, d, len, Window(now, DAY), Window(now, window));
    assert (set n | n in NetCounts(log, len, now) && Within(n, d)) ==
      (set n | n in Networks(log, len, Window(now, DAY)) && Within(n, d));
    GroupingConserves(log, d, len, AllRows, AllRows);
    assert (set n | n in AggNets(log, len) && Within(n, d)) == (set n | n in Networks(log, len, AllRows) && Within(n, d));
  }
}
