/** The canonical text line of an event record (the header comment of libiptracking/log_data.h), and how
    the parser undoes it; and what the parser's wrap check on 16-bit fields really accepts. */
module LogPrint {
  import opened Options
  import opened LogRecords
  import opened LogParse
  import Chartest

  function DigitChar(d: nat): char
    requires d < 10
  {
    '0' + d as char
  }

  /** A number in decimal, without leading zeros. */
  function Dec(n: nat): string {
    if n < 10 then [DigitChar(n)] else Dec(n / 10) + [DigitChar(n % 10)]
  }

  /** `%d`. */
  function DecInt(n: int): string {
    if n < 0 then "-" + Dec(-n) else Dec(n)
  }

  predicate AllDigits(ds: string) {
    forall i :: 0 <= i < |ds| ==> IsDigit(ds[i])
  }

  /** The decimal value of a digit string read on from `v`. */
  function DecVal(v: nat, ds: string): nat
    requires AllDigits(ds)
    decreases ds
  {
    if ds == "" then v else DecVal(10 * v + Digit(ds[0]), ds[1..])
  }

  lemma {:induction false} DecValSnoc(v: nat, ds: string, c: char)
    requires AllDigits(ds) && IsDigit(c)
    ensures AllDigits(ds + [c]) && DecVal(v, ds + [c]) == 10 * DecVal(v, ds) + Digit(c)
    decreases ds
  {
    if ds != "" {
      DecValSnoc(10 * v + Digit(ds[0]), ds[1..], c);
      assert (ds + [c])[1..] == ds[1..] + [c];
    } else {
      assert ds + [c] == [c] && [c][1..] == "";
    }
  }

  lemma {:induction false} DecIsDecimal(n: nat)
    ensures Dec(n) != "" && AllDigits(Dec(n)) && DecVal(0, Dec(n)) == n
  {
    if n < 10 {
      assert Dec(n)[1..] == "";
    } else {
      DecIsDecimal(n / 10);
      DecValSnoc(0, Dec(n / 10), DigitChar(n % 10));
    }
  }

  lemma {:induction false} DecValGrows(v: nat, ds: string)
    requires AllDigits(ds)
    ensures v <= DecVal(v, ds)
    decreases ds
  {
    if ds != "" { DecValGrows(10 * v + Digit(ds[0]), ds[1..]); }
  }

  // ---------------------------------------------------------------- the wrap check

  /** What the uint16_t digit loop makes of a digit string read on from `v`. */
  function Acc16(v: uint16, ds: string): Option<uint16>
    requires AllDigits(ds)
    decreases ds
  {
    if ds == "" then Some(v)
    else
      var w := (10 * v + Digit(ds[0])) % 0x1_0000;
      if w < v then None else Acc16(w, ds[1..])
  }

  /** The field parser is that loop followed by a comma. */
  lemma {:induction false} ScanIsAcc(v: uint16, ds: string, r: string)
    requires AllDigits(ds) && r != "" && !IsDigit(r[0])
    ensures Scan16(ds + r, v) == (if Acc16(v, ds).Some? then Stop(Acc16(v, ds).value, r) else Wrapped)
    decreases ds
  {
    if ds == "" {
      assert ds + r == r;
    } else {
      var w := (10 * v + Digit(ds[0])) % 0x1_0000;
      assert (ds + r)[1..] == ds[1..] + r && (ds + r)[0] == ds[0];
      if w >= v { ScanIsAcc(w, ds[1..], r); }
    }
  }

  lemma {:induction false} Acc16Snoc(v: uint16, ds: string, c: char)
    requires AllDigits(ds) && IsDigit(c)
    ensures AllDigits(ds + [c])
    ensures Acc16(v, ds + [c]) ==
      if Acc16(v, ds).None? then None
      else var w := (10 * Acc16(v, ds).value + Digit(c)) % 0x1_0000;
        if w < Acc16(v, ds).value then None else Some(w)
    decreases ds
  {
    if ds == "" {
      assert ds + [c] == [c] && [c][1..] == "";
    } else {
      var w := (10 * v + Digit(ds[0])) % 0x1_0000;
      assert (ds + [c])[1..] == ds[1..] + [c];
      if w >= v { Acc16Snoc(w, ds[1..], c); }
    }
  }

  /** Whatever is accepted is congruent to the decimal value modulo 65536. */
  lemma {:induction false} AcceptedIsCongruent(ds: string)
    requires AllDigits(ds)
    ensures Acc16(0, ds).Some? ==> Acc16(0, ds).value == DecVal(0, ds) % 0x1_0000
  {
    if ds != "" {
      var front, c := ds[..|ds| - 1], ds[|ds| - 1];
      assert ds == front + [c];
      AcceptedIsCongruent(front);
      Acc16Snoc(0, front, c);
      DecValSnoc(0, front, c);
      CongruentStep(DecVal(0, front), Digit(c));
      hide Acc16, DecVal;
    }
  }

  lemma CongruentStep(v: nat, d: nat)
    ensures (10 * (v % 0x1_0000) + d) % 0x1_0000 == (10 * v + d) % 0x1_0000
  {
    var q := v / 0x1_0000;
    assert 10 * v + d == 0x1_0000 * (10 * q) + (10 * (v % 0x1_0000) + d);
  }

  /** Every value up to 65535 is accepted as it is, with any number of leading zeros. */
  lemma {:induction false} SmallIsExact(ds: string)
    requires AllDigits(ds) && DecVal(0, ds) < 0x1_0000
    ensures Acc16(0, ds) == Some(DecVal(0, ds))
  {
    if ds != "" {
      var front, c := ds[..|ds| - 1], ds[|ds| - 1];
      assert ds == front + [c];
      DecValSnoc(0, front, c);
      SmallIsExact(front);
      Acc16Snoc(0, front, c);
    }
  }

  /** Read digit by digit the value never falls modulo 65536: the wraps, if any, are not noticed. */
  predicate Rises(v: nat) {
    v == 0 || (Rises(v / 10) && (v / 10) % 0x1_0000 <= v % 0x1_0000)
  }

  /** The check accepts a digit string of any length exactly when its value rises modulo 65536 digit by digit. */
  lemma {:induction false} AcceptedIff(ds: string)
    requires AllDigits(ds)
    ensures Acc16(0, ds).Some? <==> Rises(DecVal(0, ds))
  {
    hide Acc16, DecVal, Rises;
    if ds != "" {
      var front, c := ds[..|ds| - 1], ds[|ds| - 1];
      assert ds == front + [c];
      AcceptedIff(front);
      AcceptedIsCongruent(front);
      Acc16Snoc(0, front, c);
      DecValSnoc(0, front, c);
      CongruentStep(DecVal(0, front), Digit(c));
      RisesStep(DecVal(0, front), Digit(c));
    } else {
      NoDigits();
    }
  }

  lemma NoDigits()
    ensures Acc16(0, "") == Some(0) && DecVal(0, "") == 0 && Rises(0)
  {
  }

  lemma RisesStep(v: nat, d: nat)
    requires d < 10
    ensures Rises(10 * v + d) <==> Rises(v) && v % 0x1_0000 <= (10 * v + d) % 0x1_0000
  {
    assert (10 * v + d) / 10 == v;
  }

  lemma {:induction false} SmallRises(v: nat)
    requires v < 0x1_0000
    ensures Rises(v)
  {
    if v > 0 { SmallRises(v / 10); }
  }

  /** A 16-bit field is right when a value that fits is read as it is and any other is refused. */
  predicate ReadRight(ds: string)
    requires AllDigits(ds)
  {
    Acc16(0, ds) == if DecVal(0, ds) < 0x1_0000 then Some(DecVal(0, ds)) else None
  }

  /** For digit strings of any length, exactly the values that do not fit and yet rise are read wrong. */
  lemma ReadRightIff(ds: string)
    requires AllDigits(ds)
    ensures ReadRight(ds) <==> DecVal(0, ds) < 0x1_0000 || !Rises(DecVal(0, ds))
  {
    AcceptedIff(ds);
    if DecVal(0, ds) < 0x1_0000 {
      SmallIsExact(ds);
    }
  }

  /** While the digits before the last still fit, the check is one comparison. */
  lemma LastDigitCheck(ds: string)
    requires AllDigits(ds) && DecVal(0, ds) / 10 < 0x1_0000
    ensures Acc16(0, ds).Some? <==> DecVal(0, ds) / 10 <= DecVal(0, ds) % 0x1_0000
  {
    AcceptedIff(ds);
    SmallRises(DecVal(0, ds) / 10);
  }

  /** Up to 72816 the field is read correctly: accepted, and then exactly, if and only if it fits 16 bits. */
  lemma CheckHoldsBelow72817(ds: string)
    requires AllDigits(ds) && DecVal(0, ds) <= 72816
    ensures Acc16(0, ds).Some? <==> DecVal(0, ds) < 0x1_0000
    ensures Acc16(0, ds).Some? ==> Acc16(0, ds).value == DecVal(0, ds)
  {
    if DecVal(0, ds) < 0x1_0000 {
      SmallIsExact(ds);
    } else {
      LastDigitCheck(ds);
    }
  }

  lemma Digits72817()
    ensures Dec(72817) == "72817"
  {
    assert Dec(72) == "72" && Dec(728) == "728" && Dec(7281) == "7281";
  }

  lemma Rises72817()
    ensures Rises(72817) && !Rises(131072)
  {
    SmallRises(7281);
  }

  /** 72817 is the least value the check misses, read as 7281; larger values are not all missed. */
  lemma CheckMisses72817()
    ensures Dec(72817) == "72817" && AllDigits(Dec(72817)) && !ReadRight(Dec(72817)) && Acc16(0, Dec(72817)) == Some(7281)
    ensures forall ds :: AllDigits(ds) && !ReadRight(ds) ==> 72817 <= DecVal(0, ds)
    ensures AllDigits(Dec(131072)) && ReadRight(Dec(131072))
  {
    hide DecVal, Acc16, AllDigits, Dec, Rises, ReadRight;
    Digits72817();
    DecIsDecimal(72817);
    DecIsDecimal(131072);
    Rises72817();
    ReadRightIff(Dec(72817));
    ReadRightIff(Dec(131072));
    AcceptedIff(Dec(72817));
    AcceptedIsCongruent(Dec(72817));
    forall ds | AllDigits(ds) && !ReadRight(ds)
      ensures 72817 <= DecVal(0, ds)
    {
      if DecVal(0, ds) <= 72816 {
        CheckHoldsBelow72817(ds);
        ReadRightMeans(ds);
      }
    }
  }

  lemma ReadRightMeans(ds: string)
    requires AllDigits(ds)
    ensures ReadRight(ds) <==>
      (Acc16(0, ds).Some? <==> DecVal(0, ds) < 0x1_0000) && (Acc16(0, ds).Some? ==> Acc16(0, ds).value == DecVal(0, ds))
  {
  }

  /** What the record gets from a 16-bit field of digits followed by a comma. */
  lemma Uint16FieldReads(ds: string, r: string)
    requires AllDigits(ds)
    ensures Uint16Field(ds + ("," + r)) == (if Acc16(0, ds).Some? then Some((Acc16(0, ds).value, r)) else None)
  {
    ScanIsAcc(0, ds, "," + r);
    assert ("," + r)[1..] == r;
  }

  /** The pid field is exact up to INT32_MAX and undefined beyond. */
  lemma {:induction false} PidScan(v: nat, ds: string, r: string)
    requires AllDigits(ds) && r != "" && !IsDigit(r[0]) && v <= INT32_MAX
    ensures ScanPid(ds + r, v) == (if DecVal(v, ds) <= INT32_MAX then Stop(DecVal(v, ds), r) else Undefined)
    decreases ds
  {
    if ds == "" {
      assert ds + r == r;
    } else {
      var w := 10 * v + Digit(ds[0]);
      assert (ds + r)[1..] == ds[1..] + r && (ds + r)[0] == ds[0];
      if w <= INT32_MAX {
        PidScan(w, ds[1..], r);
      } else {
        DecValGrows(w, ds[1..]);
      }
    }
  }

  // ---------------------------------------------------------------- printing

  /** [dst_ipaddr],[src_ipaddr],[src_port],[event],[sshd_pid],[uid],[log_date] */
  function Print(d: LogData): string {
    CStr(d.dstIpaddr) + ("," + (CStr(d.srcIpaddr) + ("," + PrintTail(d))))
  }

  function PrintTail(d: LogData): string {
    Dec(d.srcPort) + ("," + (Dec(d.event) + ("," + PrintEnd(d))))
  }

  function PrintEnd(d: LogData): string {
    DecInt(d.sshdPid) + ("," + (CStr(d.uid) + ("," + CStr(d.logDate))))
  }

  /** A text field as the parser leaves it: NUL-padded, terminated, without a comma. */
  predicate CleanField(field: string, size: nat) {
    |field| == size && |CStr(field)| < size && field == Pad(CStr(field), size) && ',' !in CStr(field)
  }

  /** The records that have a line. */
  predicate Canonical(d: LogData) {
    && CleanField(d.dstIpaddr, IPADDR_SIZE) && CleanField(d.srcIpaddr, IPADDR_SIZE) && CleanField(d.uid, UID_SIZE)
    && (CStr(d.dstIpaddr) != "" ==> !IsSpace(CStr(d.dstIpaddr)[0]))
    && 0 <= d.sshdPid
    && CleanField(d.logDate, DATE_SIZE)
    && CStr(d.logDate) != "" && Chartest.Match(DATE_CHUNKS, CStr(d.logDate)) == Some(|CStr(d.logDate)|)
  }

  lemma {:induction false} FieldLenOf(t: string, r: string)
    requires NUL !in t && ',' !in t
    ensures FieldLen(t + ("," + r)) == |t|
  {
    var s := t + ("," + r);
    if t == "" {
      assert s == "," + r;
    } else {
      assert s[0] == t[0] && s[1..] == t[1..] + ("," + r);
      FieldLenOf(t[1..], r);
    }
  }

  lemma TextFieldOf(t: string, r: string, size: nat)
    requires NUL !in t && ',' !in t && |t| < size
    ensures TextField(t + ("," + r), size) == Some((t, r))
  {
    FieldLenOf(t, r);
    var s := t + ("," + r);
    assert s[..|t|] == t && s[|t| + 1..] == r;
  }

  lemma Uint16FieldOf(n: uint16, r: string)
    ensures Uint16Field(Dec(n) + ("," + r)) == Some((n, r))
  {
    DecIsDecimal(n);
    SmallIsExact(Dec(n));
    ScanIsAcc(0, Dec(n), "," + r);
    assert ("," + r)[1..] == r;
  }

  lemma CleanText(field: string, size: nat)
    requires CleanField(field, size)
    ensures NUL !in CStr(field) && ',' !in CStr(field)
  {
    TerminatedIffShort(field);
  }

  /** The line's first four fields with what follows them. */
  function HeadLine(d: LogData, end: string): string {
    CStr(d.dstIpaddr) + ("," + (CStr(d.srcIpaddr) + ("," + (Dec(d.srcPort) + ("," + (Dec(d.event) + ("," + end)))))))
  }

  lemma HeadOf(d: LogData, end: string)
    requires Canonical(d)
    ensures ParseHead(HeadLine(d, end)) ==
            Some(Head(CStr(d.dstIpaddr), CStr(d.srcIpaddr), d.srcPort, d.event, end))
  {
    CleanText(d.dstIpaddr, IPADDR_SIZE);
    CleanText(d.srcIpaddr, IPADDR_SIZE);
    var afterPort := Dec(d.event) + ("," + end);
    var afterSrc := Dec(d.srcPort) + ("," + afterPort);
    TextFieldOf(CStr(d.dstIpaddr), CStr(d.srcIpaddr) + ("," + afterSrc), IPADDR_SIZE);
    TextFieldOf(CStr(d.srcIpaddr), afterSrc, IPADDR_SIZE);
    Uint16FieldOf(d.srcPort, afterPort);
    Uint16FieldOf(d.event, end);
  }

  lemma DatePattern()
    ensures |Chartest.Flat(DATE_CHUNKS)| == 19
    ensures forall i :: 0 <= i < 19 ==> !Chartest.Flat(DATE_CHUNKS)[i](NUL) && !Chartest.Flat(DATE_CHUNKS)[i](',')
  {
    DateLength(0);
    assert DATE_CHUNKS[0..] == DATE_CHUNKS;
    FlatRejects(DATE_CHUNKS, NUL);
    FlatRejects(DATE_CHUNKS, ',');
  }

  function CharsFrom(k: nat): nat
    requires k <= |DATE_CHUNKS|
    decreases |DATE_CHUNKS| - k
  {
    if k == |DATE_CHUNKS| then 0 else DATE_CHUNKS[k].nChar + CharsFrom(k + 1)
  }

  lemma {:induction false} DateLength(k: nat)
    requires k <= |DATE_CHUNKS|
    ensures |Chartest.Flat(DATE_CHUNKS[k..])| == CharsFrom(k)
    ensures CharsFrom(0) == 19
    decreases |DATE_CHUNKS| - k
  {
    if k < |DATE_CHUNKS| {
      DateLength(k + 1);
      Chartest.FlatStep(DATE_CHUNKS, k);
    }
  }

  lemma {:induction false} FlatRejects(chunks: seq<Chartest.Chunk>, c: char)
    requires forall k :: 0 <= k < |chunks| ==> !chunks[k].test(c)
    ensures forall i :: 0 <= i < |Chartest.Flat(chunks)| ==> !Chartest.Flat(chunks)[i](c)
  {
    if chunks != [] { FlatRejects(chunks[1..], c); }
  }

  /** What may stand at a place of a timestamp: dashes after year and month, a blank after the date, colons
      after hour and minute, digits elsewhere. */
  predicate Stamps(i: nat, c: char) {
    if i == 4 || i == 7 then c == '-'
    else if i == 10 then c == ' '
    else if i == 13 || i == 16 then c == ':'
    else '0' <= c <= '9'
  }

  const CHUNK_STARTS := [0, 4, 5, 7, 8, 10, 11, 13, 14, 16, 17, 19]

  lemma ChunkStarts()
    ensures forall k :: 0 <= k <= 11 ==> CharsFrom(k) == 19 - CHUNK_STARTS[k]
  {
    assert CharsFrom(11) == 0 && CharsFrom(10) == 2 && CharsFrom(9) == 3 && CharsFrom(8) == 5 && CharsFrom(7) == 6;
    assert CharsFrom(6) == 8 && CharsFrom(5) == 9 && CharsFrom(4) == 11 && CharsFrom(3) == 12 && CharsFrom(2) == 14;
    assert CharsFrom(1) == 15;
  }

  /** Where the k-th chunk of the pattern starts, and what its characters are. */
  lemma ChunkStamps(k: nat)
    requires k < |DATE_CHUNKS|
    ensures CharsFrom(k) <= 19
    ensures forall i, c :: 19 - CharsFrom(k) <= i < 19 - CharsFrom(k + 1) ==> (DATE_CHUNKS[k].test(c) <==> Stamps(i, c))
  {
    hide CharsFrom;
    ChunkStarts();
  }

  lemma CharsFromStep(k: nat)
    requires k < |DATE_CHUNKS|
    ensures CharsFrom(k) == DATE_CHUNKS[k].nChar + CharsFrom(k + 1)
  {
  }

  lemma {:induction false} FlatStamps(k: nat)
    requires k <= |DATE_CHUNKS|
    ensures CharsFrom(k) <= 19 && |Chartest.Flat(DATE_CHUNKS[k..])| == CharsFrom(k)
    ensures forall i, c :: 0 <= i < CharsFrom(k) ==>
      (Chartest.Flat(DATE_CHUNKS[k..])[i](c) <==> Stamps(19 - CharsFrom(k) + i, c))
    decreases |DATE_CHUNKS| - k
  {
    hide Stamps, Chartest.Flat, CharsFrom;
    DateLength(k);
    ChunkStarts();
    if k < |DATE_CHUNKS| {
      CharsFromStep(k);
      FlatStamps(k + 1);
      ChunkStamps(k);
      Chartest.FlatStep(DATE_CHUNKS, k);
      var n := DATE_CHUNKS[k].nChar;
      forall i, c | 0 <= i < CharsFrom(k)
        ensures Chartest.Flat(DATE_CHUNKS[k..])[i](c) <==> Stamps(19 - CharsFrom(k) + i, c)
      {
        if i >= n {
          assert Chartest.Flat(DATE_CHUNKS[k..])[i] == Chartest.Flat(DATE_CHUNKS[k + 1..])[i - n];
        }
      }
    }
  }

  /** The timestamp test takes nineteen characters, or what there is of them, exactly when they are digits,
      dashes, a blank and colons at their places. */
  lemma TimestampIff(s: string)
    ensures var n := if |s| < 19 then |s| else 19;
      Chartest.Match(DATE_CHUNKS, s) == Some(n) <==> forall i :: 0 <= i < n ==> Stamps(i, s[i])
    ensures Chartest.Match(DATE_CHUNKS, s).Some? ==> Chartest.Match(DATE_CHUNKS, s).value == if |s| < 19 then |s| else 19
  {
    hide Stamps;
    FlatStamps(0);
    DateLength(0);
    assert DATE_CHUNKS[0..] == DATE_CHUNKS;
  }

  /** The timestamp test on a canonical timestamp and whatever follows it. */
  lemma DateOf(t: string, rest: string)
    requires t != "" && Chartest.Match(DATE_CHUNKS, t) == Some(|t|) && (|t| == 19 || rest == "")
    ensures Chartest.Match(DATE_CHUNKS, t + rest) == Some(|t|)
  {
    DatePattern();
    assert forall i :: 0 <= i < |t| ==> (t + rest)[i] == t[i];
  }

  lemma PidOf(pid: nat, r: string)
    requires pid <= INT32_MAX
    ensures !ScanPid(Dec(pid) + ("," + r), 0).Undefined?
    ensures AfterComma(ScanPid(Dec(pid) + ("," + r), 0)) == Some((pid, r))
  {
    DecIsDecimal(pid);
    PidScan(0, Dec(pid), "," + r);
    assert ("," + r)[1..] == r;
  }

  lemma DatePrefix(date: string, rest: string)
    ensures (date + rest)[..|date|] == date
    ensures date != "" ==> date + rest != ""
  {
  }

  /** The line's last three fields with what follows the line. */
  function EndLine(d: LogData, rest: string): string {
    PrintEnd(d) + rest
  }

  lemma EndShape(d: LogData, rest: string)
    requires 0 <= d.sshdPid
    ensures EndLine(d, rest) == Dec(d.sshdPid) + ("," + (CStr(d.uid) + ("," + (CStr(d.logDate) + rest))))
  {
    hide CStr, Dec;
  }

  /** What a canonical record says of its parts. */
  lemma CanonicalParts(d: LogData)
    requires Canonical(d)
    ensures var dst, src, uid, date := CStr(d.dstIpaddr), CStr(d.srcIpaddr), CStr(d.uid), CStr(d.logDate);
      && |dst| < IPADDR_SIZE && |src| < IPADDR_SIZE && |uid| < UID_SIZE && |date| < DATE_SIZE
      && NUL !in uid && ',' !in uid && date != ""
      && Chartest.Match(DATE_CHUNKS, date) == Some(|date|)
      && d == LogData(Pad(dst, IPADDR_SIZE), Pad(src, IPADDR_SIZE), d.srcPort, d.event,
                      d.sshdPid, Pad(uid, UID_SIZE), Pad(date, DATE_SIZE))
    ensures 0 <= d.sshdPid <= INT32_MAX
  {
    CleanText(d.uid, UID_SIZE);
    hide CStr, Pad, Chartest.Match, DATE_CHUNKS;
  }

  /** The last three fields, once it is known where each ends. */
  lemma TailParts(head: Head, length: nat, pid: nat, afterPid: string, uid: string, afterUid: string, n: nat)
    requires |head.dst| < IPADDR_SIZE && |head.src| < IPADDR_SIZE && |head.rest| <= length && |afterUid| <= length
    requires !ScanPid(head.rest, 0).Undefined? && AfterComma(ScanPid(head.rest, 0)) == Some((pid, afterPid))
    requires TextField(afterPid, UID_SIZE) == Some((uid, afterUid)) && afterUid != ""
    requires Chartest.Match(DATE_CHUNKS, afterUid) == Some(n) && n + 1 <= DATE_SIZE && pid <= INT32_MAX
    ensures n <= |afterUid|
    ensures ParseTail(head, length) ==
      Accepted(LogData(Pad(head.dst, IPADDR_SIZE), Pad(head.src, IPADDR_SIZE), head.port, head.event, pid,
                       Pad(uid, UID_SIZE), Pad(afterUid[..n], DATE_SIZE)), length - |afterUid| + n)
  {
    hide ScanPid, AfterComma, TextField, Chartest.Match, Pad, DATE_CHUNKS;
  }

  lemma TailOf(d: LogData, rest: string, length: nat)
    requires Canonical(d) && (|CStr(d.logDate)| == 19 || rest == "")
    requires |EndLine(d, rest)| <= length
    ensures ParseTail(Head(CStr(d.dstIpaddr), CStr(d.srcIpaddr), d.srcPort, d.event, EndLine(d, rest)), length) ==
      Accepted(d, length - |rest|)
  {
    hide CStr, Dec, ScanPid, AfterComma, TextField, Chartest.Match, EndLine, Pad, ParseTail, DATE_CHUNKS, Canonical;
    var date, uid := CStr(d.logDate), CStr(d.uid);
    var afterPid := uid + ("," + (date + rest));
    CanonicalParts(d);
    EndShape(d, rest);
    PidOf(d.sshdPid, afterPid);
    TextFieldOf(uid, date + rest, UID_SIZE);
    DateOf(date, rest);
    DatePrefix(date, rest);
    TailParts(Head(CStr(d.dstIpaddr), CStr(d.srcIpaddr), d.srcPort, d.event, EndLine(d, rest)), length,
              d.sshdPid, afterPid, uid, date + rest, |date|);
  }

  /** The line with what follows it, as the fields come. */
  lemma LineShape(d: LogData, rest: string)
    ensures Print(d) + rest == HeadLine(d, EndLine(d, rest))
  {
    hide CStr, Dec, PrintEnd;
  }

  lemma LineStart(d: LogData, end: string)
    requires Canonical(d)
    ensures |end| < |HeadLine(d, end)|
    ensures var s := HeadLine(d, end); s[0] != NUL && SkipSpaces(s) == s
  {
    CleanText(d.dstIpaddr, IPADDR_SIZE);
    var s := HeadLine(d, end);
    assert s[0] == if CStr(d.dstIpaddr) != "" then CStr(d.dstIpaddr)[0] else ',';
  }

  /** Parse undoes print: the line of a record, followed by anything when its timestamp is full and by
      nothing when it is cut short, parses to that record and ends exactly where the line ends. */
  lemma ParseUndoesPrint(d: LogData, rest: string)
    requires Canonical(d) && (|CStr(d.logDate)| == 19 || rest == "")
    ensures Parse(Print(d) + rest) == Accepted(d, |Print(d)|)
  {
    hide *;
    LineParses(d, rest);
    LineShape(d, rest);
  }

  lemma LineParses(d: LogData, rest: string)
    requires Canonical(d) && (|CStr(d.logDate)| == 19 || rest == "")
    ensures var line := HeadLine(d, EndLine(d, rest));
      |rest| <= |line| && Parse(line) == Accepted(d, |line| - |rest|)
  {
    hide *;
    ParseLine(d, EndLine(d, rest));
    TailOf(d, rest, |HeadLine(d, EndLine(d, rest))|);
  }

  /** The parser gets past the first four fields of a line. */
  lemma ParseLine(d: LogData, end: string)
    requires Canonical(d)
    ensures |end| <= |HeadLine(d, end)|
    ensures Parse(HeadLine(d, end)) ==
      ParseTail(Head(CStr(d.dstIpaddr), CStr(d.srcIpaddr), d.srcPort, d.event, end), |HeadLine(d, end)|)
  {
    hide HeadLine, CStr, Dec, ParseHead, ParseTail, SkipSpaces, Canonical;
    LineStart(d, end);
    HeadOf(d, end);
  }

  lemma {:induction false} SpacesSkipped(spaces: string, s: string)
    requires forall i :: 0 <= i < |spaces| ==> spaces[i] in [' ', '\t', '\n', '\r', 11 as char, 12 as char]
    requires SkipSpaces(s) == s
    ensures SkipSpaces(spaces + s) == s
  {
    if spaces == "" {
      assert spaces + s == s;
    } else {
      assert (spaces + s)[1..] == spaces[1..] + s;
      SpacesSkipped(spaces[1..], s);
    }
  }

  /** Any white space before a line is skipped, and nothing else changes. */
  lemma LeadingSpacesSkipped(spaces: string, d: LogData, rest: string)
    requires forall i :: 0 <= i < |spaces| ==> spaces[i] in [' ', '\t', '\n', '\r', 11 as char, 12 as char]
    requires Canonical(d) && (|CStr(d.logDate)| == 19 || rest == "")
    ensures Parse(spaces + (Print(d) + rest)) == Accepted(d, |spaces| + |Print(d)|)
  {
    hide Canonical, CStr, Print, SkipSpaces, ParseHead, ParseTail, HeadLine, EndLine;
    LineShape(d, rest);
    LineStart(d, EndLine(d, rest));
    var line := HeadLine(d, EndLine(d, rest));
    SpacesSkipped(spaces, line);
    HeadOf(d, EndLine(d, rest));
    TailOf(d, rest, |spaces + line|);
  }

  // ---------------------------------------------------------------- normal form

  lemma {:induction false} FieldIsClean(s: string)
    ensures NUL !in s[..FieldLen(s)] && ',' !in s[..FieldLen(s)]
  {
    if s == "" || s[0] == NUL || s[0] == ',' {
    } else {
      FieldIsClean(s[1..]);
      assert s[..FieldLen(s)] == [s[0]] + s[1..][..FieldLen(s[1..])];
    }
  }

  lemma PaddedIsClean(t: string, size: nat)
    requires NUL !in t && ',' !in t && |t| < size
    ensures CleanField(Pad(t, size), size) && CStr(Pad(t, size)) == t
  {
    CStrOfPad(t, size);
  }

  lemma {:induction false} SkipStops(s: string)
    ensures SkipSpaces(s) != "" && SkipSpaces(s)[0] != NUL ==> !IsSpace(SkipSpaces(s)[0])
  {
    if s != "" && s[0] != NUL && IsSpace(s[0]) { SkipStops(s[1..]); }
  }

  lemma DateIsClean(s: string)
    requires s != "" && Chartest.Match(DATE_CHUNKS, s).Some?
    ensures var t := s[..Chartest.Match(DATE_CHUNKS, s).value];
      0 < |t| <= 19 && NUL !in t && ',' !in t && Chartest.Match(DATE_CHUNKS, t) == Some(|t|)
  {
    DatePattern();
    var n := Chartest.Match(DATE_CHUNKS, s).value;
    var t := s[..n];
    forall i | 0 <= i < n
      ensures t[i] != NUL && t[i] != ','
    {
      assert Chartest.Flat(DATE_CHUNKS)[i](t[i]);
    }
    assert Chartest.Passes(Chartest.Flat(DATE_CHUNKS), t, n);
  }

  lemma ParsedTailIsClean(head: Head, length: nat)
    requires |head.dst| < IPADDR_SIZE && |head.src| < IPADDR_SIZE && |head.rest| <= length
    requires ParseTail(head, length).Accepted?
    ensures var d := ParseTail(head, length).data;
      && d.dstIpaddr == Pad(head.dst, IPADDR_SIZE) && d.srcIpaddr == Pad(head.src, IPADDR_SIZE)
      && d.srcPort == head.port && d.event == head.event && 0 <= d.sshdPid
      && CleanField(d.uid, UID_SIZE) && CleanField(d.logDate, DATE_SIZE)
      && CStr(d.logDate) != "" && Chartest.Match(DATE_CHUNKS, CStr(d.logDate)) == Some(|CStr(d.logDate)|)
  {
    var pid := AfterComma(ScanPid(head.rest, 0)).value;
    var uid := TextField(pid.1, UID_SIZE).value;
    FieldIsClean(pid.1);
    PaddedIsClean(uid.0, UID_SIZE);
    DateIsClean(uid.1);
    PaddedIsClean(uid.1[..Chartest.Match(DATE_CHUNKS, uid.1).value], DATE_SIZE);
  }

  /** Whatever the parser accepts is a record that has a line. */
  lemma ParsedIsCanonical(buf: string)
    requires Parse(buf).Accepted?
    ensures Canonical(Parse(buf).data)
  {
    var s := SkipSpaces(buf);
    SkipStops(buf);
    var head := ParseHead(s).value;
    var dst := TextField(s, IPADDR_SIZE).value;
    FieldIsClean(s);
    FieldIsClean(dst.1);
    PaddedIsClean(head.dst, IPADDR_SIZE);
    PaddedIsClean(head.src, IPADDR_SIZE);
    ParsedTailIsClean(head, |buf|);
  }

  /** Normal form: printing what was parsed and parsing again gives the same record, also when the buffer
      cut the timestamp short, and whatever NULs, spaces or leading zeros the buffer had. */
  lemma PrintIsNormalForm(buf: string)
    requires Parse(buf).Accepted?
    ensures Parse(Print(Parse(buf).data)) == Accepted(Parse(buf).data, |Print(Parse(buf).data)|)
  {
    hide Canonical, Parse, Print, CStr;
    ParsedIsCanonical(buf);
    var d := Parse(buf).data;
    ParseUndoesPrint(d, "");
    assert Print(d) + "" == Print(d);
  }

  /** The records the parser can return are exactly the canonical ones. */
  lemma RangeOfParse(d: LogData)
    ensures Canonical(d) <==> exists buf :: Parse(buf).Accepted? && Parse(buf).data == d
  {
    hide Canonical, Parse, Print, CStr;
    if Canonical(d) {
      ParseUndoesPrint(d, "");
      assert Parse(Print(d) + "").Accepted?;
    }
    if buf :| Parse(buf).Accepted? && Parse(buf).data == d {
      ParsedIsCanonical(buf);
    }
  }

  /** A parsed record passes the daemon's own check exactly when its event is known and its three text
      fields are not empty. */
  lemma ParsedValidIff(buf: string)
    requires Parse(buf).Accepted?
    ensures WellSized(Parse(buf).data)
    ensures var d := Parse(buf).data;
      IsValid(d) <==> (d.event < LOG_EVENT_MAX && CStr(d.dstIpaddr) != "" && CStr(d.srcIpaddr) != "" && CStr(d.uid) != "")
  {
    ParsedIsCanonical(buf);
    ValidIffStrings(Parse(buf).data);
  }
}
