/** The text form of an event record (log_data_parse in libiptracking/log_data.c): seven comma-separated
    fields in a bounded buffer.  `Parse` is the specification, by remaining text; `LogDataParse` is the
    code's cursor loops. */
module LogParse {
  import opened Options
  import opened LogRecords
  import Chartest

  predicate IsSpace(c: char) {
    c == ' ' || '\t' <= c <= '\r'
  }

  predicate IsDigit(c: char) {
    '0' <= c <= '9'
  }

  function Digit(c: char): nat
    requires IsDigit(c)
  {
    c as int - '0' as int
  }

  /** `####-##-## ##:##:##`. */
  const DATE_CHUNKS: seq<Chartest.Chunk> := [
    Chartest.Chunk(4, IsDigit), Chartest.Chunk(1, c => c == '-'),
    Chartest.Chunk(2, IsDigit), Chartest.Chunk(1, c => c == '-'),
    Chartest.Chunk(2, IsDigit), Chartest.Chunk(1, c => c == ' '),
    Chartest.Chunk(2, IsDigit), Chartest.Chunk(1, c => c == ':'),
    Chartest.Chunk(2, IsDigit), Chartest.Chunk(1, c => c == ':'),
    Chartest.Chunk(2, IsDigit)]

  const INT32_MAX := 0x7FFF_FFFF

  // ---------------------------------------------------------------- specification

  function SkipSpaces(s: string): (r: string)
    ensures |r| <= |s|
  {
    if s != "" && s[0] != NUL && IsSpace(s[0]) then SkipSpaces(s[1..]) else s
  }

  /** The length of the text before the first comma or NUL. */
  function FieldLen(s: string): (n: nat)
    ensures n <= |s|
  {
    if s == "" || s[0] == NUL || s[0] == ',' then 0 else 1 + FieldLen(s[1..])
  }

  /** A text field and what follows its separator; none when the buffer ends first or the text with its
      terminator does not fit. */
  function TextField(s: string, size: nat): (r: Option<(string, string)>)
    ensures r.Some? ==> |r.value.0| < size && |r.value.0| + 1 + |r.value.1| == |s|
  {
    var n := FieldLen(s);
    if n == |s| || n + 1 > size then None else Some((s[..n], s[n + 1..]))
  }

  /** Where a digit loop stops: at a value and a rest, or at a wrap it noticed, or in undefined arithmetic. */
  datatype Scan = Stop(value: nat, rest: string) | Wrapped | Undefined

  /** The loop over a uint16_t field: ten times the value plus the digit, truncated; a value smaller than
      the one before is taken for an overflow. */
  function Scan16(s: string, v: uint16): Scan {
    if s == "" || s[0] == NUL || !IsDigit(s[0]) then Stop(v, s)
    else
      var w := (10 * v + Digit(s[0])) % 0x1_0000;
      if w < v then Wrapped else Scan16(s[1..], w)
  }

  /** The loop over the int32_t field: beyond INT32_MAX the C arithmetic is undefined. */
  function ScanPid(s: string, v: nat): Scan {
    if s == "" || s[0] == NUL || !IsDigit(s[0]) then Stop(v, s)
    else
      var w := 10 * v + Digit(s[0]);
      if w > INT32_MAX then Undefined else ScanPid(s[1..], w)
  }

  /** A scanned number must be followed by a comma. */
  function AfterComma(scan: Scan): Option<(nat, string)> {
    if scan.Stop? && scan.rest != "" && scan.rest[0] == ',' then Some((scan.value, scan.rest[1..])) else None
  }

  lemma {:induction false} Scan16Range(s: string, v: uint16)
    ensures Scan16(s, v).Stop? ==> Scan16(s, v).value < 0x1_0000 && |Scan16(s, v).rest| <= |s|
    ensures !Scan16(s, v).Undefined?
  {
    if s == "" || s[0] == NUL || !IsDigit(s[0]) {
    } else {
      var w := (10 * v + Digit(s[0])) % 0x1_0000;
      if w >= v { Scan16Range(s[1..], w); }
    }
  }

  lemma {:induction false} ScanPidRange(s: string, v: nat)
    requires v <= INT32_MAX
    ensures ScanPid(s, v).Stop? ==> ScanPid(s, v).value <= INT32_MAX && |ScanPid(s, v).rest| <= |s|
  {
    if s == "" || s[0] == NUL || !IsDigit(s[0]) {
    } else if 10 * v + Digit(s[0]) <= INT32_MAX {
      ScanPidRange(s[1..], 10 * v + Digit(s[0]));
    }
  }

  /** A parse gives the record and the number of characters it took, or refuses the text, or runs into the
      undefined pid arithmetic. */
  datatype Result = Accepted(data: LogData, end: nat) | Rejected | PidOverflow

  /** The first four fields and the text after them. */
  datatype Head = Head(dst: string, src: string, port: uint16, event: uint16, rest: string)

  function ParseHead(s: string): (r: Option<Head>)
    ensures r.Some? ==>
      |r.value.dst| < IPADDR_SIZE && |r.value.src| < IPADDR_SIZE && |r.value.rest| <= |s|
  {
    var dst := TextField(s, IPADDR_SIZE);
    if dst.None? then None else
    var src := TextField(dst.value.1, IPADDR_SIZE);
    if src.None? then None else
    var port := Uint16Field(src.value.1);
    if port.None? then None else
    var event := Uint16Field(port.value.1);
    if event.None? then None else
    Some(Head(dst.value.0, src.value.0, port.value.0, event.value.0, event.value.1))
  }

  function Uint16Field(s: string): (r: Option<(uint16, string)>)
    ensures r.Some? ==> |r.value.1| <= |s|
  {
    Scan16Range(s, 0);
    AfterComma(Scan16(s, 0))
  }

  function Parse(buf: string): (r: Result)
    ensures r.Accepted? ==> r.end <= |buf|
  {
    var s := SkipSpaces(buf);
    if s == "" || s[0] == NUL then Rejected else
    var head := ParseHead(s);
    if head.None? then Rejected else
    ParseTail(head.value, |buf|)
  }

  /** The last three fields of a buffer of `length` characters. */
  function ParseTail(head: Head, length: nat): (r: Result)
    requires |head.dst| < IPADDR_SIZE && |head.src| < IPADDR_SIZE && |head.rest| <= length
    ensures r.Accepted? ==> r.end <= length
  {
    if ScanPid(head.rest, 0).Undefined? then PidOverflow else
    ScanPidRange(head.rest, 0);
    var pid := AfterComma(ScanPid(head.rest, 0));
    if pid.None? then Rejected else
    var uid := TextField(pid.value.1, UID_SIZE);
    if uid.None? || uid.value.1 == "" then Rejected else
    var date := Chartest.Match(DATE_CHUNKS, uid.value.1);
    if date.None? || date.value + 1 > DATE_SIZE then Rejected else
    Accepted(
      LogData(Pad(head.dst, IPADDR_SIZE), Pad(head.src, IPADDR_SIZE), head.port, head.event, pid.value.0,
              Pad(uid.value.0, UID_SIZE), Pad(uid.value.1[..date.value], DATE_SIZE)),
      length - |uid.value.1| + date.value)
  }

  // ---------------------------------------------------------------- the code

  /** Move a cursor past leading white space. */
  lemma SkipStep(s: string, p: nat)
    requires p < |s| && s[p] != NUL && IsSpace(s[p])
    ensures SkipSpaces(s[p..]) == SkipSpaces(s[p + 1..])
  {
    assert s[p..][1..] == s[p + 1..];
  }

  /** The text-field loop: from `p` to the first comma or NUL, counting the remaining length down. */
  method FindSeparator(s: string, p: nat, pLen0: nat) returns (e: nat, pLen: nat)
    requires p <= |s| && pLen0 == |s| - p
    ensures e == p + FieldLen(s[p..]) && e <= |s| && pLen == |s| - e
  {
    e, pLen := p, pLen0;
    while pLen > 0 && s[e] != NUL && s[e] != ','
      invariant p <= e <= |s| && pLen == |s| - e
      invariant FieldLen(s[p..]) == (e - p) + FieldLen(s[e..])
    {
      assert s[e..][1..] == s[e + 1..];
      e, pLen := e + 1, pLen - 1;
    }
  }

  /** A text field: find its end, check that it fits, copy it, and step over the separator. */
  method ParseText(s: string, p: nat, pLen0: nat, size: nat) returns (r: Option<string>, e: nat, pLen: nat)
    requires p <= |s| && pLen0 == |s| - p
    ensures e <= |s| && pLen == |s| - e
    ensures r.None? <==> TextField(s[p..], size).None?
    ensures r.Some? ==> TextField(s[p..], size) == Some((r.value, s[e..]))
  {
    e, pLen := FindSeparator(s, p, pLen0);
    if pLen == 0 || (e - p) + 1 > size {
      return None, e, pLen;
    }
    r := Some(s[p..e]);
    assert s[p..][..e - p] == s[p..e] && s[p..][e - p + 1..] == s[e + 1..];
    e, pLen := e + 1, pLen - 1;
  }

  /** A uint16_t field: the digit loop with its wrap check, then the comma. */
  method ParseUint16(s: string, p: nat, pLen0: nat) returns (r: Option<uint16>, e: nat, pLen: nat)
    requires p <= |s| && pLen0 == |s| - p
    ensures e <= |s| && (r.Some? ==> pLen == |s| - e)
    ensures r.None? <==> Uint16Field(s[p..]).None?
    ensures r.Some? ==> Uint16Field(s[p..]) == Some((r.value, s[e..]))
  {
    e, pLen := p, pLen0;
    var value: uint16, lastVal := 0, 0;
    while pLen > 0 && s[e] != NUL && IsDigit(s[e])
      invariant p <= e <= |s| && pLen == |s| - e
      invariant lastVal == value
      invariant Scan16(s[p..], 0) == Scan16(s[e..], value)
    {
      assert s[e..][1..] == s[e + 1..];
      value := (10 * value + Digit(s[e])) % 0x1_0000;
      if value < lastVal {
        return None, e, 0;
      }
      lastVal := value;
      e, pLen := e + 1, pLen - 1;
    }
    if pLen == 0 || s[e] != ',' {
      return None, e, pLen;
    }
    assert s[e..][1..] == s[e + 1..];
    r, e, pLen := Some(value), e + 1, pLen - 1;
  }

  /** The sshd_pid field; `undefined` when the signed arithmetic would overflow. */
  method ParsePid(s: string, p: nat, pLen0: nat) returns (r: Option<nat>, undefined: bool, e: nat, pLen: nat)
    requires p <= |s| && pLen0 == |s| - p
    ensures e <= |s| && (r.Some? ==> pLen == |s| - e)
    ensures undefined <==> ScanPid(s[p..], 0).Undefined?
    ensures r.None? <==> AfterComma(ScanPid(s[p..], 0)).None?
    ensures r.Some? ==> r.value <= INT32_MAX && AfterComma(ScanPid(s[p..], 0)) == Some((r.value, s[e..]))
  {
    e, pLen, undefined := p, pLen0, false;
    var value: nat := 0;
    while pLen > 0 && s[e] != NUL && IsDigit(s[e])
      invariant p <= e <= |s| && pLen == |s| - e
      invariant 0 <= value <= INT32_MAX
      invariant ScanPid(s[p..], 0) == ScanPid(s[e..], value)
    {
      assert s[e..][1..] == s[e + 1..];
      value := 10 * value + Digit(s[e]);
      if value > INT32_MAX {
        return None, true, e, pLen;
      }
      e, pLen := e + 1, pLen - 1;
    }
    if pLen == 0 || s[e] != ',' {
      return None, false, e, pLen;
    }
    assert s[e..][1..] == s[e + 1..];
    r, e, pLen := Some(value), e + 1, pLen - 1;
  }

  /** The fields up to the event. */
  method ParseHeadFields(s: string, p0: nat, pLen0: nat) returns (head: Option<Head>, p: nat, pLen: nat)
    requires p0 <= |s| && pLen0 == |s| - p0
    ensures head == ParseHead(s[p0..])
    ensures head.Some? ==> p <= |s| && pLen == |s| - p && head.value.rest == s[p..]
  {
    hide Uint16Field, TextField;
    var dst, src: Option<string>;
    dst, p, pLen := ParseText(s, p0, pLen0, IPADDR_SIZE);
    if dst.None? { return None, p, pLen; }
    src, p, pLen := ParseText(s, p, pLen, IPADDR_SIZE);
    if src.None? { return None, p, pLen; }
    var port, event: Option<uint16>;
    port, p, pLen := ParseUint16(s, p, pLen);
    if port.None? { return None, p, pLen; }
    event, p, pLen := ParseUint16(s, p, pLen);
    if event.None? { return None, p, pLen; }
    head := Some(Head(dst.value, src.value, port.value, event.value, s[p..]));
  }

  /** log_data_parse.  The remaining length is at every point the distance from the cursor to the end of
      the buffer, so no access leaves the buffer. */
  method LogDataParse(s: string) returns (result: Result)
    ensures result == Parse(s)
  {
    var p, pLen := 0, |s|;
    assert s[0..] == s;
    while pLen > 0 && s[p] != NUL && IsSpace(s[p])
      invariant 0 <= p <= |s| && pLen == |s| - p
      invariant SkipSpaces(s) == SkipSpaces(s[p..])
    {
      SkipStep(s, p);
      p, pLen := p + 1, pLen - 1;
    }
    assert SkipSpaces(s) == s[p..];
    hide SkipSpaces, IsSpace, ParseHead, ParseTail;
    if pLen == 0 || s[p] == NUL {
      return Rejected;
    }
    var head;
    head, p, pLen := ParseHeadFields(s, p, pLen);
    if head.None? { return Rejected; }
    result := ParseTailFields(s, p, pLen, head.value);
  }

  /** The fields from the pid on. */
  method ParseTailFields(s: string, p0: nat, pLen0: nat, head: Head) returns (result: Result)
    requires p0 <= |s| && pLen0 == |s| - p0 && head.rest == s[p0..]
    requires |head.dst| < IPADDR_SIZE && |head.src| < IPADDR_SIZE
    ensures result == ParseTail(head, |s|)
  {
    hide ScanPid, TextField, Chartest.Match, AfterComma;
    var pid, undefined, p, pLen := ParsePid(s, p0, pLen0);
    if undefined { return PidOverflow; }
    if pid.None? { return Rejected; }
    var uid: Option<string>;
    uid, p, pLen := ParseText(s, p, pLen, UID_SIZE);
    if uid.None? { return Rejected; }
    if pLen == 0 { return Rejected; }
    var date := Chartest.Test(DATE_CHUNKS, s[p..]);
    if date.None? { return Rejected; }
    var e := p + date.value;
    if e - p + 1 > DATE_SIZE { return Rejected; }
    assert s[p..][..date.value] == s[p..e];
    result := Accepted(
      LogData(Pad(head.dst, IPADDR_SIZE), Pad(head.src, IPADDR_SIZE), head.port, head.event, pid.value,
              Pad(uid.value, UID_SIZE), Pad(s[p..e], DATE_SIZE)),
      e);
  }
}
