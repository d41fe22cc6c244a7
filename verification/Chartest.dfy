/** The character sequence test (libiptracking/chartest.c): chunks of a number of characters each, matched
    against a bounded buffer.  When the buffer ends inside the pattern what was there still passes. */
module Chartest {
  import opened Options
  import opened Bounds

  datatype Chunk = Chunk(nChar: nat, test: char -> bool)

  /** One test per character of the pattern. */
  function Flat(chunks: seq<Chunk>): seq<char -> bool> {
    if chunks == [] then []
    else seq(chunks[0].nChar, _ => chunks[0].test) + Flat(chunks[1..])
  }

  /** The first `n` characters pass the first `n` tests. */
  predicate Passes(tests: seq<char -> bool>, s: string, n: nat)
    requires n <= |tests| && n <= |s|
  {
    forall i :: 0 <= i < n ==> tests[i](s[i])
  }

  /** The meaning: the characters that are there pass, and the end is after the pattern or the buffer. */
  function Match(chunks: seq<Chunk>, s: string): (end: Option<nat>)
    ensures end.Some? ==> end.value <= |s|
  {
    var n := Min(|Flat(chunks)|, |s|);
    if Passes(Flat(chunks), s, n) then Some(n) else None
  }

  lemma FlatStep(chunks: seq<Chunk>, k: nat)
    requires k < |chunks|
    ensures Flat(chunks[k..]) == seq(chunks[k].nChar, _ => chunks[k].test) + Flat(chunks[k + 1..])
  {
    assert chunks[k..][1..] == chunks[k + 1..];
  }

  /** One more character passes. */
  lemma PassesMore(tests: seq<char -> bool>, s: string, n: nat)
    requires n < |tests| && n < |s| && Passes(tests, s, n)
    ensures Passes(tests, s, n + 1) <==> tests[n](s[n])
  {
  }

  /** The state of the scan: `p` characters passed; while it is okay and there is buffer left, `rest` are the
      tests still to do, and when it is not okay the next character failed its test. */
  ghost predicate Scanning(tests: seq<char -> bool>, s: string, p: nat, okay: bool, rest: seq<char -> bool>) {
    && p <= |s| && p <= |tests| && Passes(tests, s, p)
    && (okay && p < |s| ==> tests[p..] == rest)
    && (!okay ==> p < |tests| && p < |s| && !tests[p](s[p]))
  }

  /** The inner loop: the characters of one chunk. */
  method TestChunk(chunk: Chunk, s: string, p0: nat, ghost tests: seq<char -> bool>, ghost rest: seq<char -> bool>)
      returns (okay: bool, p: nat)
    requires p0 < |s| && Scanning(tests, s, p0, true, seq(chunk.nChar, _ => chunk.test) + rest)
    ensures Scanning(tests, s, p, okay, rest)
  {
    okay, p := true, p0;
    var pLen, nChar := |s| - p0, chunk.nChar;
    while pLen > 0 && okay && nChar > 0
      invariant 0 <= nChar && p <= |s| && pLen == |s| - p
      invariant Scanning(tests, s, p, okay, seq(nChar, _ => chunk.test) + rest)
      decreases nChar
    {
      nChar := nChar - 1;
      assert tests[p] == tests[p..][0] == chunk.test;
      PassesMore(tests, s, p);
      if !chunk.test(s[p]) {
        okay := false;
      } else {
        assert tests[p + 1..] == tests[p..][1..] == seq(nChar, _ => chunk.test) + rest;
        p, pLen := p + 1, pLen - 1;
      }
    }
    assert nChar == 0 ==> seq(nChar, _ => chunk.test) + rest == rest;
  }

  /** chartest: the outer loop over the chunks. */
  method Test(chunks: seq<Chunk>, s: string) returns (end: Option<nat>)
    ensures end == Match(chunks, s)
  {
    ghost var tests := Flat(chunks);
    var okay, p: nat := true, 0;
    var chunk, nChunks := 0, |chunks|;
    assert chunks[0..] == chunks && tests[0..] == tests && Flat([]) == [];
    if |s| > 0 && |chunks| > 0 {
      while p < |s| && okay && nChunks > 0
        invariant 0 <= chunk <= |chunks| && nChunks == |chunks| - chunk
        invariant Scanning(tests, s, p, okay, Flat(chunks[chunk..]))
        decreases nChunks
      {
        hide Flat, Passes;
        nChunks := nChunks - 1;
        FlatStep(chunks, chunk);
        okay, p := TestChunk(chunks[chunk], s, p, tests, Flat(chunks[chunk + 1..]));
        chunk := chunk + 1;
      }
    }
    ScanEnds(tests, s, p, okay, Flat(chunks[chunk..]));
    assert nChunks == 0 ==> chunks[chunk..] == [];
    end := if okay then Some(p) else None;
  }

  lemma ScanEnds(tests: seq<char -> bool>, s: string, p: nat, okay: bool, rest: seq<char -> bool>)
    requires Scanning(tests, s, p, okay, rest)
    ensures okay && (p == |s| || rest == []) ==> p == Min(|tests|, |s|) && Passes(tests, s, Min(|tests|, |s|))
    ensures !okay ==> !Passes(tests, s, Min(|tests|, |s|))
  {
  }
}
