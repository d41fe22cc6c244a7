/** The firewall block list (firewall-daemon/psql-db.schema): which raw blocks the agent sees once static
    rules are applied and blocks inside active larger blocks are culled.  The views are functions of the
    table, the rules and the instant. */
module BlockList {
  import opened Options
  import opened Cidr

  /** The dates of a block; NULL leaves that side open. */
  datatype Row = Row(start: Option<int>, end: Option<int>)

  /** firewall.block_raw, keyed by ip_entity. */
  type Table = map<Block, Row>

  datatype Disposition = Deny | Allow

  /** A row of the view firewall.static_rules; the disposition column may be NULL. */
  datatype Rule = Rule(net: Block, disposition: Option<Disposition>)

  predicate Active(r: Row, now: int) {
    (r.start.None? || r.start.value < now) && (r.end.None? || r.end.value > now)
  }

  predicate IsStatic(rules: set<Rule>, c: Block, disposition: Disposition) {
    exists r :: r in rules && r.disposition == Some(disposition) && Within(c, r.net)
  }

  function ActiveParents(raw: Table, c: Block, now: int): set<Block> {
    set p | p in raw && StrictlyWithin(c, p) && Active(raw[p], now)
  }

  function BlockParentCount(raw: Table, c: Block, now: int): nat {
    |ActiveParents(raw, c, now)|
  }

  function BlockRawMinusAllow(raw: Table, rules: set<Rule>): Table {
    map c | c in raw && !IsStatic(rules, c, Allow) :: raw[c]
  }

  datatype ViewRow = ViewRow(net: Block, row: Row)

  /** The raw part of the view firewall.block. */
  function CulledRows(raw: Table, rules: set<Rule>, now: int): set<ViewRow> {
    var rest := BlockRawMinusAllow(raw, rules);
    set c | c in rest && !IsStatic(rules, c, Deny) && BlockParentCount(raw, c, now) == 0 :: ViewRow(c, rest[c])
  }

  function BlockView(raw: Table, rules: set<Rule>, now: int): set<ViewRow> {
    CulledRows(raw, rules, now) +
    set r | r in rules && r.disposition == Some(Deny) :: ViewRow(r.net, Row(None, None))
  }

  /** firewall.block_now: what the agent loads. */
  function BlockNow(raw: Table, rules: set<Rule>, now: int): set<Block> {
    set v | v in BlockView(raw, rules, now) && Active(v.row, now) :: v.net
  }

  // ---------------------------------------------------------------- coverage

  predicate Covered(blocks: set<Block>, a: Address) {
    exists c :: c in blocks && Contains(c, a)
  }

  /** Some raw block that is active now holds the address. */
  predicate RawCovered(raw: Table, now: int, a: Address) {
    exists c :: c in raw && Active(raw[c], now) && Contains(c, a)
  }

  /** The reference meaning: an active raw block outside every static allow, or a static deny. */
  predicate Meant(raw: Table, rules: set<Rule>, now: int, a: Address) {
    (exists c :: c in raw && Active(raw[c], now) && !IsStatic(rules, c, Allow) && Contains(c, a)) ||
    (exists r :: r in rules && r.disposition == Some(Deny) && Contains(r.net, a))
  }

  /** Climbing from an active block through active parents ends at one without any. */
  lemma {:induction false} TopParent(raw: Table, c: Block, now: int) returns (top: Block)
    requires c in raw && Active(raw[c], now)
    ensures top in raw && Active(raw[top], now) && Within(c, top)
    ensures BlockParentCount(raw, top, now) == 0
    decreases c.len
  {
    if BlockParentCount(raw, c, now) == 0 {
      top := c;
      WithinReflexive(c);
    } else {
      assert ActiveParents(raw, c, now) != {};
      var p :| p in ActiveParents(raw, c, now);
      top := TopParent(raw, p, now);
      StrictlyWithinMeaning(c, p);
      WithinTransitive(c, p, top);
    }
  }

  lemma WithinKeepsStatic(rules: set<Rule>, c: Block, d: Block, disposition: Disposition)
    requires Within(c, d) && IsStatic(rules, d, disposition)
    ensures IsStatic(rules, c, disposition)
  {
    var r :| r in rules && r.disposition == Some(disposition) && Within(d, r.net);
    WithinTransitive(c, d, r.net);
  }

  lemma MeantIsShown(raw: Table, rules: set<Rule>, now: int, a: Address)
    requires Meant(raw, rules, now, a)
    ensures Covered(BlockNow(raw, rules, now), a)
  {
    if r :| r in rules && r.disposition == Some(Deny) && Contains(r.net, a) {
      ShownRule(raw, rules, now, r);
    } else {
      var c :| c in raw && Active(raw[c], now) && !IsStatic(rules, c, Allow) && Contains(c, a);
      var top := TopParent(raw, c, now);
      WithinTransitive(Host(a), c, top);
      if IsStatic(rules, top, Allow) {
        WithinKeepsStatic(rules, c, top, Allow);
      } else if IsStatic(rules, top, Deny) {
        var r :| r in rules && r.disposition == Some(Deny) && Within(top, r.net);
        WithinTransitive(Host(a), top, r.net);
      } else {
        assert ViewRow(top, raw[top]) in CulledRows(raw, rules, now);
        assert top in BlockNow(raw, rules, now);
      }
    }
  }

  lemma ShownRule(raw: Table, rules: set<Rule>, now: int, r: Rule)
    requires r in rules && r.disposition == Some(Deny)
    ensures r.net in BlockNow(raw, rules, now)
  {
    assert ViewRow(r.net, Row(None, None)) in BlockView(raw, rules, now);
  }

  /** Culling preserves meaning: for every table, every rules relation and every instant, block_now
      covers exactly the addresses it is meant to. */
  lemma BlockNowMeans(raw: Table, rules: set<Rule>, now: int, a: Address)
    ensures Covered(BlockNow(raw, rules, now), a) <==> Meant(raw, rules, now, a)
  {
    if Covered(BlockNow(raw, rules, now), a) {
      var c :| c in BlockNow(raw, rules, now) && Contains(c, a);
      var v :| v in BlockView(raw, rules, now) && Active(v.row, now) && v.net == c;
    }
    if Meant(raw, rules, now, a) {
      MeantIsShown(raw, rules, now, a);
    }
  }

  /** The entries that come from raw blocks are pairwise disjoint, and none lies inside a rule. */
  lemma CulledDisjoint(raw: Table, rules: set<Rule>, now: int, v: ViewRow, w: ViewRow, a: Address)
    requires v in CulledRows(raw, rules, now) && Active(v.row, now) && Contains(v.net, a)
    requires w in CulledRows(raw, rules, now) && Active(w.row, now) && Contains(w.net, a)
    ensures v == w
    ensures !IsStatic(rules, v.net, Allow) && !IsStatic(rules, v.net, Deny)
  {
    NestedOrDisjoint(v.net, w.net, a);
    StrictlyWithinMeaning(v.net, w.net);
    StrictlyWithinMeaning(w.net, v.net);
    assert ActiveParents(raw, v.net, now) == {} == ActiveParents(raw, w.net, now);
    assert w.net in raw && v.net in raw;
    assert w.net !in ActiveParents(raw, v.net, now) && v.net !in ActiveParents(raw, w.net, now);
  }

  /** The culled entries are exactly the largest active raw blocks outside the rules. */
  lemma CulledAreMaximal(raw: Table, rules: set<Rule>, now: int, c: Block)
    requires c in raw && Active(raw[c], now)
    ensures ViewRow(c, raw[c]) in CulledRows(raw, rules, now) <==>
              !IsStatic(rules, c, Allow) && !IsStatic(rules, c, Deny) &&
              forall d :: d in raw && Active(raw[d], now) && Within(c, d) ==> d == c
  {
    forall d | d in raw && Active(raw[d], now)
      ensures d in ActiveParents(raw, c, now) <==> Within(c, d) && d != c
    {
      StrictlyWithinMeaning(c, d);
    }
    if BlockParentCount(raw, c, now) != 0 {
      assert ActiveParents(raw, c, now) != {};
      var d :| d in ActiveParents(raw, c, now);
      assert Within(c, d) && d != c;
    }
    assert ViewRow(c, raw[c]) in CulledRows(raw, rules, now) <==>
      !IsStatic(rules, c, Allow) && !IsStatic(rules, c, Deny) && BlockParentCount(raw, c, now) == 0;
  }

  // ---------------------------------------------------------------- static rules as written

  /** firewall.static_rules_raw. */
  type RuleTable = map<Block, Option<Disposition>>

  /** static_rules_parent_count: the comparison `<<=` lets a rule count itself; a NULL disposition
      equals nothing. */
  function RuleParentCount(table: RuleTable, c: Block, disposition: Option<Disposition>): nat {
    |set p | p in table && disposition.Some? && table[p] == disposition && Within(c, p)|
  }

  /** The view firewall.static_rules. */
  function StaticRules(table: RuleTable): set<Rule> {
    set c | c in table && RuleParentCount(table, c, table[c]) == 0 :: Rule(c, table[c])
  }

  /** As written the view drops every rule that has a disposition and keeps exactly the others. */
  lemma StaticRulesAsWritten(table: RuleTable, c: Block, disposition: Option<Disposition>)
    ensures Rule(c, disposition) in StaticRules(table) <==> c in table && table[c] == disposition == None
  {
    if c in table {
      var parents := set p | p in table && table[c].Some? && table[p] == table[c] && Within(c, p);
      WithinReflexive(c);
      if table[c].Some? {
        assert c in parents;
      } else {
        assert parents == {};
      }
    }
  }

  /** Hence, as written, block_now covers exactly what the active raw blocks cover. */
  lemma BlockNowAsWritten(raw: Table, table: RuleTable, now: int, a: Address)
    ensures Covered(BlockNow(raw, StaticRules(table), now), a) <==> RawCovered(raw, now, a)
  {
    BlockNowMeans(raw, StaticRules(table), now, a);
    forall r | r in StaticRules(table)
      ensures r.disposition == None
    {
      StaticRulesAsWritten(table, r.net, r.disposition);
    }
  }

  // ---------------------------------------------------------------- static rules as documented

  /** A rule of the table that another rule of the same disposition contains. */
  predicate Redundant(table: RuleTable, c: Block) {
    c in table && exists p :: p in table && table[c].Some? && table[p] == table[c] && StrictlyWithin(c, p)
  }

  /** The view that the schema describes: without the rules that another rule of the same disposition contains. */
  function DocumentedRules(table: RuleTable): set<Rule> {
    set c | c in table && !Redundant(table, c) :: Rule(c, table[c])
  }

  predicate NoDisposition(table: RuleTable) {
    forall c :: c in table ==> table[c] == None
  }

  /** Climbing from a rule through the rules of its disposition that contain it ends at one that stays. */
  lemma {:induction false} TopRule(table: RuleTable, c: Block) returns (top: Block)
    requires c in table
    ensures top in table && table[top] == table[c] && Within(c, top) && !Redundant(table, top)
    decreases c.len
  {
    if Redundant(table, c) {
      var p :| p in table && table[p] == table[c] && StrictlyWithin(c, p);
      top := TopRule(table, p);
      StrictlyWithinMeaning(c, p);
      WithinTransitive(c, p, top);
    } else {
      top := c;
      WithinReflexive(c);
    }
  }

  /** The view is the documented one exactly when no rule of the table has a disposition. */
  lemma StaticRulesDocumentedIff(table: RuleTable)
    ensures StaticRules(table) == DocumentedRules(table) <==> NoDisposition(table)
  {
    forall c, disposition | NoDisposition(table)
      ensures Rule(c, disposition) in StaticRules(table) <==> Rule(c, disposition) in DocumentedRules(table)
    {
      StaticRulesAsWritten(table, c, disposition);
    }
    if c :| c in table && table[c] != None {
      var top := TopRule(table, c);
      StaticRulesAsWritten(table, top, table[top]);
      assert Rule(top, table[top]) in DocumentedRules(table);
    }
  }

  /** Dropping redundant rules loses nothing: a block is allowed or denied by the documented view exactly
      when some rule of the table with that disposition contains it. */
  lemma DocumentedKeepsMeaning(table: RuleTable, c: Block, disposition: Disposition)
    ensures IsStatic(DocumentedRules(table), c, disposition) <==> InRule(table, c, disposition)
  {
    if IsStatic(DocumentedRules(table), c, disposition) {
      var r :| r in DocumentedRules(table) && r.disposition == Some(disposition) && Within(c, r.net);
      assert r.net in table;
    }
    if InRule(table, c, disposition) {
      var p :| p in table && table[p] == Some(disposition) && Within(c, p);
      var top := TopRule(table, p);
      WithinTransitive(c, p, top);
      assert Rule(top, table[top]) in DocumentedRules(table);
    }
  }

  predicate InRule(table: RuleTable, c: Block, disposition: Disposition) {
    exists p :: p in table && table[p] == Some(disposition) && Within(c, p)
  }

  /** Some raw block that is active now and in no allow rule of the table holds the address. */
  predicate NotAllowedCovered(raw: Table, table: RuleTable, now: int, a: Address) {
    exists c :: c in raw && Active(raw[c], now) && !InRule(table, c, Allow) && Contains(c, a)
  }

  /** With the documented view block_now would cover the active raw blocks in no allow rule, and the deny rules. */
  lemma BlockNowAsDocumented(raw: Table, table: RuleTable, now: int, a: Address)
    ensures Covered(BlockNow(raw, DocumentedRules(table), now), a) <==>
      NotAllowedCovered(raw, table, now, a) || InRule(table, Host(a), Deny)
  {
    var rules := DocumentedRules(table);
    BlockNowMeans(raw, rules, now, a);
    DocumentedKeepsMeaning(table, Host(a), Deny);
    forall c: Block
      ensures IsStatic(rules, c, Allow) <==> InRule(table, c, Allow)
    {
      DocumentedKeepsMeaning(table, c, Allow);
    }
    HostWithin(rules, a);
    hide IsStatic, InRule, DocumentedRules;
  }

  lemma HostWithin(rules: set<Rule>, a: Address)
    ensures IsStatic(rules, Host(a), Deny) <==> exists r :: r in rules && r.disposition == Some(Deny) && Contains(r.net, a)
  {
  }

  /** block_now covers at an instant what it would with the documented view. */
  ghost predicate SameCoverage(raw: Table, table: RuleTable, now: int) {
    forall a :: Covered(BlockNow(raw, StaticRules(table), now), a) <==> Covered(BlockNow(raw, DocumentedRules(table), now), a)
  }

  /** That is so exactly when every denied address is in an active raw block, and every address in an active
      raw block is denied or in one that no allow rule contains. */
  lemma SameCoverageIff(raw: Table, table: RuleTable, now: int)
    ensures SameCoverage(raw, table, now) <==>
      && (forall a :: InRule(table, Host(a), Deny) ==> RawCovered(raw, now, a))
      && (forall a :: RawCovered(raw, now, a) ==> InRule(table, Host(a), Deny) || NotAllowedCovered(raw, table, now, a))
  {
    forall a: Address
      ensures Covered(BlockNow(raw, StaticRules(table), now), a) <==> RawCovered(raw, now, a)
      ensures Covered(BlockNow(raw, DocumentedRules(table), now), a) <==>
        NotAllowedCovered(raw, table, now, a) || InRule(table, Host(a), Deny)
      ensures NotAllowedCovered(raw, table, now, a) ==> RawCovered(raw, now, a)
    {
      BlockNowAsWritten(raw, table, now, a);
      BlockNowAsDocumented(raw, table, now, a);
    }
    hide BlockNow, StaticRules, DocumentedRules, InRule, RawCovered, NotAllowedCovered, Covered;
  }

  /** For every block table and instant, it is so exactly when no rule has a disposition: a deny rule shows
      over an empty table, and without deny rules an allow rule shows over a table of that one block. */
  lemma AlwaysSameCoverageIff(table: RuleTable)
    ensures (forall raw, now :: SameCoverage(raw, table, now)) <==> NoDisposition(table)
  {
    hide Within, BlockNow, SameCoverage, StaticRules, DocumentedRules;
    if NoDisposition(table) {
      forall raw, now
        ensures SameCoverage(raw, table, now)
      {
        NoDispositionSameCoverage(raw, table, now);
      }
    } else if c :| c in table && table[c] == Some(Deny) {
      FirstAddress(c);
      SameCoverageIff(map[], table, 0);
      assert InRule(table, Host(Addr(c.family, c.base)), Deny);
      assert !SameCoverage(map[], table, 0);
    } else {
      var c :| c in table && table[c] != None;
      var raw: Table := map[c := Row(None, None)];
      var a := Addr(c.family, c.base);
      FirstAddress(c);
      WithinReflexive(c);
      SameCoverageIff(raw, table, 0);
      assert table[c] != Some(Deny);
      assert table[c].value == Allow;
      assert c in raw && Contains(c, a) && InRule(table, c, Allow);
      assert RawCovered(raw, 0, a) && !NotAllowedCovered(raw, table, 0, a) && !InRule(table, Host(a), Deny);
      assert !SameCoverage(raw, table, 0);
    }
  }

  lemma NoDispositionSameCoverage(raw: Table, table: RuleTable, now: int)
    requires NoDisposition(table)
    ensures SameCoverage(raw, table, now)
  {
    StaticRulesDocumentedIff(table);
  }

  lemma FirstAddress(c: Block)
    ensures Contains(c, Addr(c.family, c.base))
  {
  }

  const ANYWHERE: Block := NetworkOf(Addr(V4, 0), 0)

  /** One rule that denies 0.0.0.0/0, which the table's default disposition does: the view is empty, and
      block_now with it. */
  lemma OneDenyRule(now: int)
    ensures var table: RuleTable := map[ANYWHERE := Some(Deny)];
      && StaticRules(table) == {} && DocumentedRules(table) == {Rule(ANYWHERE, Some(Deny))}
      && BlockNow(map[], StaticRules(table), now) == {} && BlockNow(map[], DocumentedRules(table), now) == {ANYWHERE}
  {
    hide Within, StrictlyWithin, NetworkOf;
    var table: RuleTable := map[ANYWHERE := Some(Deny)];
    var r := Rule(ANYWHERE, Some(Deny));
    StaticRulesAsWritten(table, ANYWHERE, Some(Deny));
    WithinReflexive(ANYWHERE);
    assert ANYWHERE in table && !Redundant(table, ANYWHERE);
    assert r in DocumentedRules(table);
    ShownRule(map[], {r}, now, r);
  }
}
