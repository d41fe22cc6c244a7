/** Path lookup in a loaded YAML document (yaml_helper_doc_node_at_path in libiptracking/yaml_helpers.c).
    Nodes refer to each other by number, so aliases can make the graph cyclic. */
module YamlPath {
  import opened Options
  import opened LogRecords

  datatype Node =
    | NoNode
    | Scalar(value: string)
    | Sequence(items: seq<int>)
    | Mapping(pairs: seq<(int, int)>)

  /** yaml_document_get_node: nodes by number. */
  type Document = map<int, Node>

  /** A C path: no NUL inside; at the end `*path` reads as NUL. */
  function Head(path: string): char {
    if path == "" then NUL else path[0]
  }

  /** The length of the key at the start of a path: up to the next `.` or `[`. */
  function KeyLen(path: string): (n: nat)
    ensures n <= |path|
  {
    if path == "" || path[0] == NUL || path[0] == '.' || path[0] == '[' then 0 else 1 + KeyLen(path[1..])
  }

  /** The first pair whose key node is this scalar. */
  function FindPair(doc: Document, pairs: seq<(int, int)>, key: string): Option<int> {
    if pairs == [] then None
    else if pairs[0].0 in doc && doc[pairs[0].0] == Scalar(key) then Some(pairs[0].1)
    else FindPair(doc, pairs[1..], key)
  }

  /** strtol(path, &end, 0): the value and how many characters it took, none when there is no number.
      The C library skips white space and takes a sign and digits only. */
  datatype Number = Number(value: int, taken: nat)
  type Strtol = string -> Number

  predicate LikeStrtol(f: Strtol, path: string) {
    f(path).taken > 0 ==> path != "" && path[0] != ']'
  }

  /** One key of a lookup, after a `.` below the first mapping: the node it selects and the path left.
      Sequences and scalars have no members. */
  function Select(doc: Document, node: Node, path: string, level: nat): (r: Option<(int, string)>)
    requires path != ""
    ensures r.Some? ==> |r.value.1| < |path|
  {
    if !node.Mapping? || (level > 0 && path[0] != '.') then None else
    var rest := if level > 0 then path[1..] else path;
    var n := KeyLen(rest);
    if n == 0 then None else
    var value := FindPair(doc, node.pairs, rest[..n]);
    if value.None? then None else Some((value.value, rest[n..]))
  }

  /** Reference meaning of a lookup: key by key until the path is used up. */
  function Resolve(doc: Document, node: int, path: string, level: nat): Option<int>
    decreases |path|
  {
    if node !in doc then None
    else if path == "" then Some(node)
    else
      var next := Select(doc, doc[node], path, level);
      if next.None? then None else Resolve(doc, next.value.0, next.value.1, level + 1)
  }

  /** The scan of the pairs of one mapping. */
  method FindInMapping(doc: Document, pairs: seq<(int, int)>, key: string) returns (value: Option<int>)
    ensures value == FindPair(doc, pairs, key)
  {
    value := None;
    var ps := 0;
    assert pairs[0..] == pairs;
    while ps < |pairs|
      invariant 0 <= ps <= |pairs|
      invariant FindPair(doc, pairs, key) == FindPair(doc, pairs[ps..], key)
    {
      assert pairs[ps..][1..] == pairs[ps + 1..];
      var k := pairs[ps].0;
      if k in doc && doc[k].Scalar? {
        if |key| == |doc[k].value| && key == doc[k].value {
          return Some(pairs[ps].1);
        }
      }
      ps := ps + 1;
    }
  }

  /** The key scan. */
  method ScanKey(path: string) returns (n: nat)
    ensures n == KeyLen(path)
  {
    n := 0;
    assert path[0..] == path;
    while n < |path| && path[n] != NUL && path[n] != '.' && path[n] != '['
      invariant 0 <= n <= |path| && KeyLen(path) == n + KeyLen(path[n..])
    {
      assert path[n..][1..] == path[n + 1..];
      n := n + 1;
    }
  }

  /** yaml_helper_doc_node_at_path.  It ends on every graph, cyclic or not, because each round that goes on
      consumes part of the path. */
  method NodeAtPath(doc: Document, start: int, path0: string, strtol: Strtol) returns (r: Option<int>)
    requires NUL !in path0 && forall p :: LikeStrtol(strtol, p)
    ensures r == Resolve(doc, start, path0, 0)
  {
    var node, path, level := Some(start), path0, 0;
    while node.Some? && node.value in doc
      invariant 0 <= level && NUL !in path
      invariant node.Some? ==> Resolve(doc, start, path0, 0) == Resolve(doc, node.value, path, level)
      invariant node.None? ==> Resolve(doc, start, path0, 0) == None
      decreases |path|, if node.Some? then 1 else 0
    {
      if Head(path) == NUL {
        return node;
      }
      match doc[node.value] {
        case NoNode =>
          return None;
        case Scalar(_) =>
          node := None;
        case Sequence(items) =>
          if path[0] != '[' { return None; }
          path := path[1..];
          var number := strtol(path);
          assert LikeStrtol(strtol, path);
          if number.value < 0 || number.taken == 0 { return None; }
          // the cursor is still in front of the number here
          assert Head(path) != ']';
          return None;
        case Mapping(pairs) =>
          if level > 0 {
            if path[0] != '.' { return None; }
            path := path[1..];
          }
          level := level + 1;
          var n := ScanKey(path);
          if n == 0 { return None; }
          node := FindInMapping(doc, pairs, path[..n]);
          path := path[n..];
      }
    }
    r := None;
  }

  // ---------------------------------------------------------------- composition

  /** The scan of a mapping picks the value of its first pair with that key, if there is one. */
  lemma {:induction false} FindPairMeaning(doc: Document, pairs: seq<(int, int)>, key: string) returns (k: nat)
    ensures k <= |pairs|
    ensures forall i :: 0 <= i < k ==> !(pairs[i].0 in doc && doc[pairs[i].0] == Scalar(key))
    ensures k < |pairs| ==> pairs[k].0 in doc && doc[pairs[k].0] == Scalar(key) && FindPair(doc, pairs, key) == Some(pairs[k].1)
    ensures k == |pairs| ==> FindPair(doc, pairs, key) == None
  {
    if pairs == [] || (pairs[0].0 in doc && doc[pairs[0].0] == Scalar(key)) {
      k := 0;
    } else {
      k := FindPairMeaning(doc, pairs[1..], key);
      k := k + 1;
    }
  }

  predicate PlainKey(key: string) {
    key != "" && forall i :: 0 <= i < |key| ==> key[i] != NUL && key[i] != '.' && key[i] != '['
  }

  lemma {:induction false} PlainKeyLen(key: string)
    requires key == "" || PlainKey(key)
    ensures KeyLen(key) == |key|
  {
    if key != "" { PlainKeyLen(key[1..]); }
  }

  /** A path of one plain key selects from a mapping, and from nothing else. */
  lemma OneKey(doc: Document, node: int, key: string)
    requires PlainKey(key) && node in doc
    ensures Resolve(doc, node, key, 0) ==
      if doc[node].Mapping? && FindPair(doc, doc[node].pairs, key).Some? && FindPair(doc, doc[node].pairs, key).value in doc
      then FindPair(doc, doc[node].pairs, key) else None
  {
    PlainKeyLen(key);
    assert key[..|key|] == key && key[|key|..] == "";
  }

  /** Where two paths are joined a key ends. */
  lemma {:induction false} KeyLenJoined(a: string, b: string)
    requires NUL !in a
    ensures KeyLen(a + ("." + b)) == KeyLen(a)
    ensures KeyLen(a) > 0 ==> a[0] != '.'
  {
    var s := a + ("." + b);
    if a == "" {
      assert s == "." + b;
    } else {
      assert s[0] == a[0] && s[1..] == a[1..] + ("." + b);
      KeyLenJoined(a[1..], b);
    }
  }

  /** Below the first mapping a key needs a dot in front; above, it does not. */
  lemma SelectDot(doc: Document, node: Node, b: string, level: nat)
    requires level > 0 && b != ""
    ensures Select(doc, node, "." + b, level) == Select(doc, node, b, 0)
  {
    assert ("." + b)[1..] == b;
  }

  lemma DotAtLevel(doc: Document, node: int, b: string, level: nat)
    requires level > 0 && b != ""
    ensures Resolve(doc, node, "." + b, level) == Resolve(doc, node, b, 0)
  {
    if node in doc {
      SelectDot(doc, doc[node], b, level);
      var next := Select(doc, doc[node], b, 0);
      hide Select;
      if next.Some? {
        LevelIrrelevant(doc, next.value.0, next.value.1, level + 1, 1);
      }
    }
  }

  /** Beyond the first mapping the level no longer matters. */
  lemma {:induction false} LevelIrrelevant(doc: Document, node: int, path: string, level: nat, other: nat)
    requires level > 0 && other > 0
    ensures Resolve(doc, node, path, level) == Resolve(doc, node, path, other)
    decreases |path|
  {
    if node in doc && path != "" {
      var next := Select(doc, doc[node], path, level);
      assert next == Select(doc, doc[node], path, other);
      if next.Some? {
        LevelIrrelevant(doc, next.value.0, next.value.1, level + 1, other + 1);
      }
    }
  }

  /** Looking up one path and then another, NULL going through. */
  function Then(doc: Document, node: Option<int>, path: string): Option<int> {
    if node.None? then None else Resolve(doc, node.value, path, 0)
  }

  /** Selecting by the first key of a joined path leaves a joined path. */
  lemma SelectJoined(doc: Document, node: Node, a: string, b: string, level: nat)
    requires NUL !in a && a != ""
    ensures var next := Select(doc, node, a, level);
      && Select(doc, node, a + ("." + b), level) ==
           (if next.None? then None else Some((next.value.0, next.value.1 + ("." + b))))
      && (next.Some? ==> NUL !in next.value.1)
  {
    var s := a + ("." + b);
    var ra := if level > 0 then a[1..] else a;
    var rs := if level > 0 then s[1..] else s;
    assert s[0] == a[0] && rs == ra + ("." + b);
    KeyLenJoined(ra, b);
    var n := KeyLen(ra);
    assert rs[..n] == ra[..n] && rs[n..] == ra[n..] + ("." + b);
  }

  lemma {:induction false} Joined(doc: Document, node: int, a: string, b: string, level: nat)
    requires NUL !in a && b != "" && (level == 0 ==> a != "")
    ensures Resolve(doc, node, a + ("." + b), level) == Then(doc, Resolve(doc, node, a, level), b)
    decreases |a|
  {
    hide Select;
    if node in doc {
      if a == "" {
        assert a + ("." + b) == "." + b;
        DotAtLevel(doc, node, b, level);
      } else {
        SelectJoined(doc, doc[node], a, b, level);
        var next := Select(doc, doc[node], a, level);
        if next.Some? {
          Joined(doc, next.value.0, next.value.1, b, level + 1);
        }
      }
    }
  }

  /** Path composition: resolving "a.b" is resolving b from the result of resolving a, for nonempty a and b
      and on every document. */
  lemma PathsCompose(doc: Document, node: int, a: string, b: string)
    requires NUL !in a && a != "" && b != ""
    ensures Resolve(doc, node, a + "." + b, 0) == Then(doc, Resolve(doc, node, a, 0), b)
  {
    assert a + "." + b == a + ("." + b);
    Joined(doc, node, a, b, 0);
  }

  /** Both halves must be nonempty: on this document the composition fails for an empty half. */
  lemma EmptyHalvesDoNotCompose()
    ensures var doc: Document := map[1 := Mapping([(2, 3)]), 2 := Scalar("k"), 3 := Scalar("v")];
      && Then(doc, Resolve(doc, 1, "", 0), "k") == Some(3) && Resolve(doc, 1, "" + "." + "k", 0) == None
      && Then(doc, Resolve(doc, 1, "k", 0), "") == Some(3) && Resolve(doc, 1, "k" + "." + "", 0) == None
  {
    var doc: Document := map[1 := Mapping([(2, 3)]), 2 := Scalar("k"), 3 := Scalar("v")];
    assert "k"[1..] == "" && KeyLen("k") == 1 && "k"[..1] == "k";
    assert "k" + "." + "" == "k." && "" + "." + "k" == ".k";
    assert KeyLen(".k") == 0 && "k."[1..] == "." && KeyLen("k.") == 1 && "k."[..1] == "k";
    assert FindPair(doc, [(2, 3)], "k") == Some(3);
    assert Resolve(doc, 3, "", 1) == Some(3) && Resolve(doc, 3, ".", 1) == None;
  }

  // ---------------------------------------------------------------- sequence indices

  /** One key or index of a path as it is documented: `[n]` selects item n of a sequence.  A dot stands before
      every key but one at the start of the path. */
  function SelectDocumented(doc: Document, node: Node, path: string, level: nat, strtol: Strtol): (r: Option<(int, string)>)
    requires path != ""
    ensures r.Some? ==> |r.value.1| < |path|
  {
    if node.Sequence? then
      if path[0] != '[' then None else
      var Number(index, taken) := strtol(path[1..]);
      if index < 0 || taken == 0 || |path| < taken + 2 || path[taken + 1] != ']' || |node.items| <= index then None
      else Some((node.items[index], path[taken + 2..]))
    else Select(doc, node, path, level)
  }

  /** The lookup as it is documented. */
  function Documented(doc: Document, node: int, path: string, level: nat, strtol: Strtol): Option<int>
    decreases |path|
  {
    if node !in doc then None
    else if path == "" then Some(node)
    else
      var next := SelectDocumented(doc, doc[node], path, level, strtol);
      if next.None? then None else Documented(doc, next.value.0, next.value.1, level + 1, strtol)
  }

  /** A key ends before the first bracket. */
  lemma {:induction false} KeyBeforeBracket(path: string)
    requires '[' in path
    ensures '[' in path[KeyLen(path)..]
  {
    if !(path[0] == NUL || path[0] == '.' || path[0] == '[') {
      assert path == [path[0]] + path[1..];
      KeyBeforeBracket(path[1..]);
      assert path[KeyLen(path)..] == path[1..][KeyLen(path[1..])..];
    }
  }

  /** A path with an index never resolves, on any document. */
  lemma {:induction false} IndexNeverResolves(doc: Document, node: int, path: string, level: nat)
    requires '[' in path
    ensures Resolve(doc, node, path, level) == None
    decreases |path|
  {
    if node in doc {
      var next := Select(doc, doc[node], path, level);
      if next.Some? {
        assert path == [path[0]] + path[1..];
        KeyBeforeBracket(if level > 0 then path[1..] else path);
        IndexNeverResolves(doc, next.value.0, next.value.1, level + 1);
      }
    }
  }

  /** Without an index the lookup is the documented one. */
  lemma {:induction false} KeysAsDocumented(doc: Document, node: int, path: string, level: nat, strtol: Strtol)
    requires '[' !in path
    ensures Resolve(doc, node, path, level) == Documented(doc, node, path, level, strtol)
    decreases |path|
  {
    if node in doc && path != "" {
      var next := Select(doc, doc[node], path, level);
      if next.Some? {
        KeysAsDocumented(doc, next.value.0, next.value.1, level + 1, strtol);
      }
    }
  }

  /** The lookup is the documented one exactly for the paths without an index and those that the documented
      lookup cannot follow either. */
  lemma DocumentedIff(doc: Document, node: int, path: string, level: nat, strtol: Strtol)
    ensures Resolve(doc, node, path, level) == Documented(doc, node, path, level, strtol) <==>
      '[' !in path || Documented(doc, node, path, level, strtol) == None
  {
    if '[' in path {
      IndexNeverResolves(doc, node, path, level);
    } else {
      KeysAsDocumented(doc, node, path, level, strtol);
    }
  }

  /** The document of the header's example. */
  const ADDRESSES: Document := map[
    1 := Mapping([(2, 3)]), 2 := Scalar("ipv4"),
    3 := Mapping([(4, 5)]), 4 := Scalar("addr"),
    5 := Sequence([6, 7, 8, 9]),
    6 := Scalar("10.10.10.10"), 7 := Scalar("10.10.10.20"), 8 := Scalar("10.10.10.30"), 9 := Scalar("10.10.10.40")]

  /** A plain key at the start of a path, after a dot below the first mapping. */
  lemma KeySelected(doc: Document, node: Node, key: string, rest: string, level: nat, strtol: Strtol)
    requires node.Mapping? && PlainKey(key) && rest != "" && (rest[0] == '.' || rest[0] == '[')
    requires FindPair(doc, node.pairs, key).Some?
    ensures var path := if level > 0 then "." + (key + rest) else key + rest;
      SelectDocumented(doc, node, path, level, strtol) == Some((FindPair(doc, node.pairs, key).value, rest))
  {
    KeyThen(key, rest);
    assert (key + rest)[..|key|] == key && (key + rest)[|key|..] == rest;
    assert ("." + (key + rest))[1..] == key + rest;
  }

  lemma SecondIndex(level: nat, strtol: Strtol)
    requires strtol("2]") == Number(2, 1)
    ensures Documented(ADDRESSES, 5, "[2]", level, strtol) == Some(8)
  {
    assert "[2]"[1..] == "2]" && "[2]"[3..] == "";
    assert SelectDocumented(ADDRESSES, ADDRESSES[5], "[2]", level, strtol) == Some((8, ""));
    hide SelectDocumented;
    assert Documented(ADDRESSES, 8, "", level + 1, strtol) == Some(8);
  }

  /** Its path selects the third address as documented, and nothing as written. */
  lemma HeaderExample(strtol: Strtol)
    requires strtol("2]") == Number(2, 1)
    ensures Documented(ADDRESSES, 1, "ipv4.addr[2]", 0, strtol) == Some(8) && ADDRESSES[8] == Scalar("10.10.10.30")
    ensures Resolve(ADDRESSES, 1, "ipv4.addr[2]", 0) == None
  {
    hide Resolve, SelectDocumented, Select, FindPair, KeyLen;
    IndexNeverResolves(ADDRESSES, 1, "ipv4.addr[2]", 0);
    PairsOfExample();
    assert "ipv4.addr[2]" == "ipv4" + ("." + ("addr" + "[2]"));
    KeySelected(ADDRESSES, ADDRESSES[1], "ipv4", "." + ("addr" + "[2]"), 0, strtol);
    KeySelected(ADDRESSES, ADDRESSES[3], "addr", "[2]", 1, strtol);
    SecondIndex(2, strtol);
  }

  lemma PairsOfExample()
    ensures FindPair(ADDRESSES, [(2, 3)], "ipv4") == Some(3) && FindPair(ADDRESSES, [(4, 5)], "addr") == Some(5)
  {
  }

  /** At a sequence a path starts with an index, and its next key with a dot: this one is documented to select
      the value of "k" in the first item, and selects nothing. */
  lemma IndexThenKey(strtol: Strtol)
    requires strtol("0].k") == Number(0, 1)
    ensures var doc: Document := map[1 := Sequence([2]), 2 := Mapping([(3, 4)]), 3 := Scalar("k"), 4 := Scalar("v")];
      Documented(doc, 1, "[0].k", 0, strtol) == Some(4) && Resolve(doc, 1, "[0].k", 0) == None
  {
    var doc: Document := map[1 := Sequence([2]), 2 := Mapping([(3, 4)]), 3 := Scalar("k"), 4 := Scalar("v")];
    IndexNeverResolves(doc, 1, "[0].k", 0);
    assert "[0].k"[1..] == "0].k" && "[0].k"[3..] == ".k" && ".k"[1..] == "k";
    PlainKeyLen("k");
    assert "k"[..1] == "k" && "k"[1..] == "" && FindPair(doc, [(3, 4)], "k") == Some(4);
    assert SelectDocumented(doc, doc[1], "[0].k", 0, strtol) == Some((2, ".k"));
    assert SelectDocumented(doc, doc[2], ".k", 1, strtol) == Some((4, ""));
    assert Documented(doc, 4, "", 2, strtol) == Some(4);
  }

  /** A plain key ends where a dot or a bracket follows. */
  lemma {:induction false} KeyThen(key: string, rest: string)
    requires (key == "" || PlainKey(key)) && rest != "" && (rest[0] == '.' || rest[0] == '[')
    ensures KeyLen(key + rest) == |key|
  {
    if key == "" {
      assert key + rest == rest;
    } else {
      assert (key + rest)[0] == key[0] && (key + rest)[1..] == key[1..] + rest;
      KeyThen(key[1..], rest);
    }
  }

  // ---------------------------------------------------------------- cycles

  /** A mapping that contains itself. */
  const CYCLE: Document := map[1 := Mapping([(2, 1)]), 2 := Scalar("k")]

  function Dots(n: nat): string {
    if n == 0 then "" else "." + ("k" + Dots(n - 1))
  }

  lemma SelectInCycle(n: nat, level: nat)
    requires level > 0
    ensures Select(CYCLE, CYCLE[1], "." + ("k" + Dots(n)), level) == Some((1, Dots(n)))
  {
    var s := "k" + Dots(n);
    assert s[1..] == Dots(n) && s[..1] == "k" && KeyLen(s) == 1;
    assert ("." + s)[1..] == s;
    assert FindPair(CYCLE, [(2, 1)], "k") == Some(1);
  }

  /** On a cyclic document the lookup still ends, after one round for each key of the path. */
  lemma {:induction false} CyclicDocument(n: nat, level: nat)
    requires level > 0
    ensures Resolve(CYCLE, 1, Dots(n), level) == Some(1)
  {
    if n > 0 {
      SelectInCycle(n - 1, level);
      CyclicDocument(n - 1, level + 1);
      hide Select, Dots, KeyLen;
    }
  }
}
