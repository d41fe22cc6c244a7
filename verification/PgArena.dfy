/** The PostgreSQL driver keeps all its connection settings in one block (__db_instance_postgresql_alloc in
    libiptracking/db_drivers/db_instance_postgresql.c): a first pass adds up the bytes, a second carves
    them out with a moving pointer.  Addresses are offsets into the block. */
module PgArena {
  import opened Options
  import opened LogRecords

  const ADDRESS_BYTES := 8

  /** The scalar values that the YAML lookups find: connection keys and the three schema settings. */
  datatype Config = Config(conn: map<string, string>, pamSchema: Option<string>,
                           firewallSchema: Option<string>, notifyChannel: Option<string>)

  /** The configured keys with their values, in the order of the key table. */
  function Selected(keys: seq<string>, conn: map<string, string>): seq<(string, string)> {
    if keys == [] then []
    else (if keys[0] in conn then [(keys[0], conn[keys[0]])] else []) + Selected(keys[1..], conn)
  }

  /** The text bytes of some key-value pairs, each string with its NUL. */
  function PairBytes(pairs: seq<(string, string)>): nat {
    if pairs == [] then 0
    else
      var n := |pairs| - 1;
      PairBytes(pairs[..n]) + |pairs[n].0| + |pairs[n].1| + 2
  }

  function OptionBytes(s: Option<string>): nat {
    if s.Some? then |s.value| + 1 else 0
  }

  predicate TextOnly(s: string) {
    NUL !in s
  }

  /** A stretch of the block. */
  datatype Span = Span(low: nat, high: nat)

  /** A C string stands at `at`, and lies with its NUL inside the span. */
  predicate Reads(block: seq<char>, at: nat, s: string, span: Span) {
    span.low <= at && at + |s| + 1 <= span.high <= |block| && block[at..at + |s|] == s && block[at + |s|] == NUL
  }

  /** What strlen and a copy would give at an offset. */
  function StringAt(block: seq<char>, at: nat): string
    requires at <= |block|
  {
    CStr(block[at..])
  }

  lemma {:induction false} CStrOfPrefix(t: string, r: string)
    requires NUL !in t
    ensures CStr(t + ([NUL] + r)) == t
  {
    var s := t + ([NUL] + r);
    if t == "" {
      assert s == [NUL] + r;
    } else {
      assert s[0] == t[0] && s[1..] == t[1..] + ([NUL] + r);
      CStrOfPrefix(t[1..], r);
    }
  }

  lemma ReadsIsString(block: seq<char>, at: nat, s: string, span: Span)
    requires Reads(block, at, s, span) && TextOnly(s)
    ensures StringAt(block, at) == s
  {
    assert block[at..] == s + ([NUL] + block[at + |s| + 1..]);
    CStrOfPrefix(s, block[at + |s| + 1..]);
  }

  /** The second pass's state: the block, the pointer `p`, and the bytes thought to be left. */
  class Arena {
    const block: array<char>
    var p: nat
    var extraBytes: nat

    ghost predicate Valid()
      reads this
    {
      p + extraBytes == block.Length
    }

    /** A zeroed block, the pointer past the instance structure. */
    constructor (baseBytes: nat, extraBytes: nat)
      ensures Valid() && p == baseBytes && this.extraBytes == extraBytes && fresh(block)
    {
      block := new char[baseBytes + extraBytes](_ => NUL);
      p := baseBytes;
      this.extraBytes := extraBytes;
    }

    /** DB_INSTANCE_POSTGRESQL_P_INC: hand out `n` bytes. */
    method Advance(n: nat) returns (at: nat)
      requires Valid() && n <= extraBytes
      modifies this
      ensures Valid() && at == old(p) && p == old(p) + n && extraBytes == old(extraBytes) - n
    {
      at := p;
      p := p + n;
      extraBytes := extraBytes - n;
    }

    /** stpncpy: write exactly `n` bytes at `at`, the text and then NULs; the end is the first NUL. */
    method Stpncpy(at: nat, s: string, n: nat) returns (e: nat)
      requires at + n <= block.Length && |s| <= n
      modifies block
      ensures e == at + |s|
      ensures forall i :: 0 <= i < at || at + n <= i < block.Length ==> block[i] == old(block[i])
      ensures forall i :: at <= i < at + n ==> block[i] == if i - at < |s| then s[i - at] else NUL
    {
      var k := 0;
      while k < n
        invariant 0 <= k <= n
        invariant forall i :: 0 <= i < at || at + k <= i < block.Length ==> block[i] == old(block[i])
        invariant forall i :: at <= i < at + k ==> block[i] == if i - at < |s| then s[i - at] else NUL
      {
        block[at + k] := if k < |s| then s[k] else NUL;
        k := k + 1;
      }
      e := at + |s|;
    }

    /** Store a string where the pointer is, padding to the end of the block, and step past its NUL. */
    method PutString(s: string) returns (at: nat)
      requires Valid() && |s| + 1 <= extraBytes
      modifies this, block
      ensures Valid() && at == old(p) && p == old(p) + |s| + 1 && extraBytes == old(extraBytes) - (|s| + 1)
      ensures Reads(block[..], at, s, Span(old(p), p))
      ensures SameUpTo(old(block[..]), block[..], old(p))
    {
      var e := Stpncpy(p, s, extraBytes);
      assert block[p..p + |s|] == s;
      at := Advance(e - p + 1);
    }

    /** The same for a setting that may be absent. */
    method PutOption(s: Option<string>) returns (at: Option<nat>)
      requires Valid() && OptionBytes(s) <= extraBytes
      modifies this, block
      ensures Valid() && p == old(p) + OptionBytes(s) && extraBytes == old(extraBytes) - OptionBytes(s)
      ensures ReadsOption(block[..], at, s, Span(old(p), p))
      ensures SameUpTo(old(block[..]), block[..], old(p))
    {
      at := None;
      if s.Some? {
        var k := PutString(s.value);
        at := Some(k);
      }
    }
  }

  predicate ReadsOption(block: seq<char>, at: Option<nat>, s: Option<string>, span: Span) {
    (at.Some? <==> s.Some?) && (s.Some? ==> Reads(block, at.value, s.value, span))
  }

  /** The finished instance: the block, the two address lists (None is the NULL terminator), and the
      three optional strings. */
  datatype Instance = Instance(block: array<char>, connKeys: seq<Option<nat>>, connValues: seq<Option<nat>>,
                               pamSchema: Option<nat>, firewallSchema: Option<nat>, notifyChannel: Option<nat>)

  /** Every string reads back within the span, and the lists end in NULL. */
  ghost predicate Holds(block: seq<char>, inst: Instance, pairs: seq<(string, string)>, c: Config, span: Span) {
    && PairsRead(block, inst.connKeys, inst.connValues, pairs, 0, span)
    && ReadsOption(block, inst.pamSchema, c.pamSchema, span)
    && ReadsOption(block, inst.firewallSchema, c.firewallSchema, span)
    && ReadsOption(block, inst.notifyChannel, c.notifyChannel, span)
  }

  predicate PairReads(block: seq<char>, key: Option<nat>, value: Option<nat>, pair: (string, string), span: Span) {
    ReadsOption(block, key, Some(pair.0), span) && ReadsOption(block, value, Some(pair.1), span)
  }

  /** The first `limit` characters are the same. */
  ghost predicate SameUpTo(block: seq<char>, block': seq<char>, limit: nat) {
    |block'| == |block| && limit <= |block| && forall i :: 0 <= i < limit ==> block'[i] == block[i]
  }

  /** Writing behind the limit leaves what was stored before it. */
  lemma ReadsKept(block: seq<char>, block': seq<char>, at: Option<nat>, s: Option<string>, span: Span, span': Span)
    requires ReadsOption(block, at, s, span) && SameUpTo(block, block', span.high)
    requires span'.low <= span.low && span.high <= span'.high <= |block|
    ensures ReadsOption(block', at, s, span')
  {
    if s.Some? {
      var a, n := at.value, |s.value|;
      assert block'[a..a + n] == block[a..a + n];
    }
  }

  lemma SelectedStep(keys: seq<string>, k: nat, conn: map<string, string>)
    requires k < |keys|
    ensures Selected(keys[k..], conn) ==
      (if keys[k] in conn then [(keys[k], conn[keys[k]])] else []) + Selected(keys[k + 1..], conn)
  {
    assert keys[k..][1..] == keys[k + 1..];
  }

  lemma PairBytesSnoc(pairs: seq<(string, string)>, pair: (string, string))
    ensures PairBytes(pairs + [pair]) == PairBytes(pairs) + |pair.0| + |pair.1| + 2
  {
    assert (pairs + [pair])[..|pairs|] == pairs;
  }

  /** The bytes of both address lists, with their terminators, and of all strings. */
  function ExtraBytes(pairs: seq<(string, string)>, c: Config): nat {
    2 * ADDRESS_BYTES * (|pairs| + 1) + PairBytes(pairs) +
    OptionBytes(c.pamSchema) + OptionBytes(c.firewallSchema) + OptionBytes(c.notifyChannel)
  }

  /** First pass: collect the configured pairs and add up the bytes. */
  method Measure(keys: seq<string>, c: Config) returns (pairs: seq<(string, string)>, extraBytes: nat)
    ensures pairs == Selected(keys, c.conn)
    ensures extraBytes == ExtraBytes(pairs, c)
  {
    pairs, extraBytes := MeasurePairs(keys, c.conn);
    extraBytes := extraBytes + 2 * ADDRESS_BYTES;
    if c.pamSchema.Some? {
      extraBytes := extraBytes + |c.pamSchema.value| + 1;
    }
    if c.firewallSchema.Some? {
      extraBytes := extraBytes + |c.firewallSchema.value| + 1;
    }
    if c.notifyChannel.Some? {
      extraBytes := extraBytes + |c.notifyChannel.value| + 1;
    }
  }

  lemma NothingSelected(conn: map<string, string>)
    ensures Selected([], conn) == [] && PairBytes([]) == 0
  {
  }

  /** The loop over the key table. */
  method MeasurePairs(keys: seq<string>, conn: map<string, string>) returns (pairs: seq<(string, string)>, bytes: nat)
    ensures pairs == Selected(keys, conn)
    ensures bytes == 2 * ADDRESS_BYTES * |pairs| + PairBytes(pairs)
  {
    hide Selected, PairBytes;
    NothingSelected(conn);
    pairs, bytes := [], 0;
    var k := 0;
    assert keys[0..] == keys;
    while k < |keys|
      invariant 0 <= k <= |keys|
      invariant pairs + Selected(keys[k..], conn) == Selected(keys, conn)
      invariant bytes == 2 * ADDRESS_BYTES * |pairs| + PairBytes(pairs)
    {
      SelectedStep(keys, k, conn);
      var key := keys[k];
      if key in conn {
        var v := conn[key];
        PairBytesSnoc(pairs, (key, v));
        assert pairs + ([(key, v)] + Selected(keys[k + 1..], conn)) == pairs + [(key, v)] + Selected(keys[k + 1..], conn);
        pairs := pairs + [(key, v)];
        bytes := bytes + (2 * ADDRESS_BYTES + |key| + |v| + 2);
      }
      k := k + 1;
    }
    assert keys[k..] == [];
  }

  /** Store one key and its value. */
  method PutPair(arena: Arena, pair: (string, string)) returns (key: nat, value: nat)
    requires arena.Valid() && |pair.0| + |pair.1| + 2 <= arena.extraBytes
    modifies arena, arena.block
    ensures arena.Valid() && arena.extraBytes == old(arena.extraBytes) - (|pair.0| + |pair.1| + 2)
    ensures arena.p == old(arena.p) + |pair.0| + |pair.1| + 2
    ensures PairReads(arena.block[..], Some(key), Some(value), pair, Span(old(arena.p), arena.p))
    ensures SameUpTo(old(arena.block[..]), arena.block[..], old(arena.p))
  {
    key := arena.PutString(pair.0);
    ghost var middle, limit := arena.block[..], arena.p;
    value := arena.PutString(pair.1);
    ReadsKept(middle, arena.block[..], Some(key), Some(pair.0), Span(old(arena.p), limit), Span(old(arena.p), arena.p));
  }

  /** The pairs from `from` on read back; the lists start at that pair. */
  ghost predicate PairsRead(block: seq<char>, connKeys: seq<Option<nat>>, connValues: seq<Option<nat>>,
                            pairs: seq<(string, string)>, from: nat, span: Span) {
    && from <= |pairs| && |connKeys| == |connValues| == |pairs| - from + 1
    && connKeys[|pairs| - from] == None && connValues[|pairs| - from] == None
    && forall i :: from <= i < |pairs| ==> PairReads(block, connKeys[i - from], connValues[i - from], pairs[i], span)
  }

  lemma PairsReadKept(block: seq<char>, block': seq<char>, connKeys: seq<Option<nat>>, connValues: seq<Option<nat>>,
                      pairs: seq<(string, string)>, from: nat, span: Span, span': Span)
    requires PairsRead(block, connKeys, connValues, pairs, from, span)
    requires SameUpTo(block, block', span.high) && span'.low <= span.low && span.high <= span'.high <= |block|
    ensures PairsRead(block', connKeys, connValues, pairs, from, span')
  {
    forall i | from <= i < |pairs|
      ensures PairReads(block', connKeys[i - from], connValues[i - from], pairs[i], span')
    {
      ReadsKept(block, block', connKeys[i - from], Some(pairs[i].0), span, span');
      ReadsKept(block, block', connValues[i - from], Some(pairs[i].1), span, span');
    }
  }

  lemma PairReadsWider(block: seq<char>, key: Option<nat>, value: Option<nat>, pair: (string, string), span: Span, span': Span)
    requires PairReads(block, key, value, pair, span)
    requires span'.low <= span.low && span.high <= span'.high <= |block|
    ensures PairReads(block, key, value, pair, span')
  {
  }

  lemma PairsReadCons(block: seq<char>, key: nat, value: nat, connKeys: seq<Option<nat>>, connValues: seq<Option<nat>>,
                      pairs: seq<(string, string)>, from: nat, span: Span)
    requires from > 0 && PairsRead(block, connKeys, connValues, pairs, from, span)
    requires PairReads(block, Some(key), Some(value), pairs[from - 1], span)
    ensures PairsRead(block, [Some(key)] + connKeys, [Some(value)] + connValues, pairs, from - 1, span)
  {
    hide PairReads;
  }

  lemma PairBytesStep(pairs: seq<(string, string)>, idx: nat)
    requires 0 < idx <= |pairs|
    ensures PairBytes(pairs[..idx]) == PairBytes(pairs[..idx - 1]) + |pairs[idx - 1].0| + |pairs[idx - 1].1| + 2
  {
    assert pairs[..idx][..idx - 1] == pairs[..idx - 1];
  }

  /** Fill in the key and value lists, last pair first. */
  method PutPairs(arena: Arena, pairs: seq<(string, string)>)
      returns (connKeys: seq<Option<nat>>, connValues: seq<Option<nat>>)
    requires arena.Valid() && PairBytes(pairs) <= arena.extraBytes
    modifies arena, arena.block
    ensures arena.Valid() && arena.extraBytes == old(arena.extraBytes) - PairBytes(pairs)
    ensures arena.p == old(arena.p) + PairBytes(pairs)
    ensures PairsRead(arena.block[..], connKeys, connValues, pairs, 0, Span(old(arena.p), arena.p))
  {
    connKeys, connValues := [None], [None];
    var idx := |pairs|;
    assert pairs[..idx] == pairs;
    while idx > 0
      invariant 0 <= idx <= |pairs| && arena.Valid()
      invariant arena.extraBytes == old(arena.extraBytes) - PairBytes(pairs) + PairBytes(pairs[..idx])
      invariant arena.p == old(arena.p) + PairBytes(pairs) - PairBytes(pairs[..idx])
      invariant PairBytes(pairs[..idx]) <= arena.extraBytes
      invariant PairsRead(arena.block[..], connKeys, connValues, pairs, idx, Span(old(arena.p), arena.p))
    {
      hide PairsRead, PairReads, SameUpTo, PairBytes;
      PairBytesStep(pairs, idx);
      idx := idx - 1;
      ghost var before, limit := arena.block[..], arena.p;
      var key, value := PutPair(arena, pairs[idx]);
      ghost var span := Span(old(arena.p), arena.p);
      PairsReadKept(before, arena.block[..], connKeys, connValues, pairs, idx + 1, Span(span.low, limit), span);
      PairReadsWider(arena.block[..], Some(key), Some(value), pairs[idx], Span(limit, arena.p), span);
      PairsReadCons(arena.block[..], key, value, connKeys, connValues, pairs, idx + 1, span);
      connKeys, connValues := [Some(key)] + connKeys, [Some(value)] + connValues;
    }
  }

  /** The second pass behind the address lists: the pairs, then the three optional strings. */
  method PutStrings(arena: Arena, pairs: seq<(string, string)>, c: Config) returns (inst: Instance)
    requires arena.Valid()
    requires arena.extraBytes == PairBytes(pairs) +
      OptionBytes(c.pamSchema) + OptionBytes(c.firewallSchema) + OptionBytes(c.notifyChannel)
    modifies arena, arena.block
    ensures arena.Valid() && arena.extraBytes == 0
    ensures inst.block == arena.block
    ensures Holds(arena.block[..], inst, pairs, c, Span(old(arena.p), arena.p))
  {
    hide PairsRead, ReadsOption, SameUpTo, PairBytes, OptionBytes;
    var connKeys, connValues := PutPairs(arena, pairs);
    ghost var low := old(arena.p);
    ghost var b1, s1 := arena.block[..], Span(low, arena.p);
    var pam := arena.PutOption(c.pamSchema);
    ghost var b2, s2 := arena.block[..], Span(low, arena.p);
    PairsReadKept(b1, b2, connKeys, connValues, pairs, 0, s1, s2);
    ReadsWider(b2, pam, c.pamSchema, Span(s1.high, s2.high), s2);
    var firewall := arena.PutOption(c.firewallSchema);
    ghost var b3, s3 := arena.block[..], Span(low, arena.p);
    PairsReadKept(b2, b3, connKeys, connValues, pairs, 0, s2, s3);
    ReadsKept(b2, b3, pam, c.pamSchema, s2, s3);
    ReadsWider(b3, firewall, c.firewallSchema, Span(s2.high, s3.high), s3);
    var channel := arena.PutOption(c.notifyChannel);
    ghost var b4, s4 := arena.block[..], Span(low, arena.p);
    PairsReadKept(b3, b4, connKeys, connValues, pairs, 0, s3, s4);
    ReadsKept(b3, b4, pam, c.pamSchema, s3, s4);
    ReadsKept(b3, b4, firewall, c.firewallSchema, s3, s4);
    ReadsWider(b4, channel, c.notifyChannel, Span(s3.high, s4.high), s4);
    inst := Instance(arena.block, connKeys, connValues, pam, firewall, channel);
  }

  lemma ReadsWider(block: seq<char>, at: Option<nat>, s: Option<string>, span: Span, span': Span)
    requires ReadsOption(block, at, s, span)
    requires span'.low <= span.low && span.high <= span'.high <= |block|
    ensures ReadsOption(block, at, s, span')
  {
  }

  /** __db_instance_postgresql_alloc, for any table of keys.  The bytes reserved by the first pass are
      exactly the bytes handed out by the second, every write stays in the block (the array accesses are
      checked), and every key, value and schema reads back as configured, in the order of the key table and
      clear of the instance structure and the two address lists before the strings; `at` are the places of
      the configured keys in the table. */
  method Alloc(keys: seq<string>, c: Config, baseBytes: nat) returns (inst: Instance, left: nat, ghost at: seq<nat>)
    ensures left == 0
    ensures InTableOrder(keys, c.conn, at, Selected(keys, c.conn))
    ensures var pairs := Selected(keys, c.conn);
      Holds(inst.block[..], inst, pairs, c,
            Span(baseBytes + 2 * ADDRESS_BYTES * (|pairs| + 1), inst.block.Length))
  {
    hide Selected, Holds, PairBytes, OptionBytes, InTableOrder;
    at := SelectedOrder(keys, c.conn);
    var pairs, extraBytes := Measure(keys, c);
    var arena := new Arena(baseBytes, extraBytes);
    var keyList := arena.Advance(ADDRESS_BYTES * (|pairs| + 1));
    var valueList := arena.Advance(ADDRESS_BYTES * (|pairs| + 1));
    inst := PutStrings(arena, pairs, c);
    left := arena.extraBytes;
  }

  /** The pairs that are packed are exactly the configured keys with their values, in table order. */
  lemma {:induction false} SelectedMeaning(keys: seq<string>, conn: map<string, string>, k: string, v: string)
    ensures (k, v) in Selected(keys, conn) <==> k in keys && k in conn && conn[k] == v
  {
    if keys != [] { SelectedMeaning(keys[1..], conn, k, v); }
  }

  /** The pairs are keys at increasing places of the table with their configured values. */
  ghost predicate InTableOrder(keys: seq<string>, conn: map<string, string>, at: seq<nat>, pairs: seq<(string, string)>) {
    && |at| == |pairs|
    && (forall i :: 0 <= i < |at| ==> at[i] < |keys| && keys[at[i]] in conn && pairs[i] == (keys[at[i]], conn[keys[at[i]]]))
    && (forall i, j :: 0 <= i < j < |at| ==> at[i] < at[j])
  }

  function Shifted(at: seq<nat>): seq<nat> {
    seq(|at|, i requires 0 <= i < |at| => at[i] + 1)
  }

  /** One more key in front of the table. */
  lemma OrderCons(keys: seq<string>, conn: map<string, string>, at: seq<nat>, pairs: seq<(string, string)>)
    requires keys != [] && InTableOrder(keys[1..], conn, at, pairs)
    ensures keys[0] !in conn ==> InTableOrder(keys, conn, Shifted(at), pairs)
    ensures keys[0] in conn ==> InTableOrder(keys, conn, [0] + Shifted(at), [(keys[0], conn[keys[0]])] + pairs)
  {
    assert forall i :: 0 <= i < |at| ==> keys[Shifted(at)[i]] == keys[1..][at[i]];
  }

  lemma {:induction false} SelectedOrder(keys: seq<string>, conn: map<string, string>)
    returns (at: seq<nat>)
    ensures InTableOrder(keys, conn, at, Selected(keys, conn))
  {
    if keys == [] {
      at := [];
    } else {
      hide InTableOrder, Shifted;
      var rest := SelectedOrder(keys[1..], conn);
      OrderCons(keys, conn, rest, Selected(keys[1..], conn));
      at := if keys[0] in conn then [0] + Shifted(rest) else Shifted(rest);
      assert keys[0] !in conn ==> Selected(keys, conn) == Selected(keys[1..], conn);
    }
  }

  /** A C program that follows the stored addresses finds the configured strings. */
  lemma StoredStringsRead(block: seq<char>, inst: Instance, pairs: seq<(string, string)>, c: Config, span: Span, i: nat)
    requires Holds(block, inst, pairs, c, span) && i < |pairs|
    requires TextOnly(pairs[i].0) && TextOnly(pairs[i].1)
    ensures inst.connKeys[i].Some? && inst.connKeys[i].value <= |block|
    ensures StringAt(block, inst.connKeys[i].value) == pairs[i].0
    ensures inst.connValues[i].Some? && inst.connValues[i].value <= |block|
    ensures StringAt(block, inst.connValues[i].value) == pairs[i].1
  {
    assert PairReads(block, inst.connKeys[i - 0], inst.connValues[i - 0], pairs[i], span);
    ReadsIsString(block, inst.connKeys[i].value, pairs[i].0, span);
    ReadsIsString(block, inst.connValues[i].value, pairs[i].1, span);
  }
}
