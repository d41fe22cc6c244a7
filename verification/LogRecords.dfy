/** The event record of the PAM daemon (libiptracking/log_data.h, log_data.c): a fixed-layout
    structure of NUL-padded text fields and three numbers, and the check applied to records read
    from the event socket. */
module LogRecords {

  const NUL: char := 0 as char
  const IPADDR_SIZE := 16
  const UID_SIZE := 60
  const DATE_SIZE := 28

  /** The number of event kinds: unknown, auth, open_session, close_session. */
  const LOG_EVENT_MAX := 4

  type uint16 = x: int | 0 <= x < 0x1_0000
  type int32 = x: int | -0x8000_0000 <= x < 0x8000_0000

  /** A text field of a given size: exactly that many bytes. */
  datatype LogData = LogData(
    dstIpaddr: string,
    srcIpaddr: string,
    srcPort: uint16,
    event: uint16,
    sshdPid: int32,
    uid: string,
    logDate: string)

  predicate WellSized(d: LogData) {
    |d.dstIpaddr| == IPADDR_SIZE && |d.srcIpaddr| == IPADDR_SIZE &&
    |d.uid| == UID_SIZE && |d.logDate| == DATE_SIZE
  }

  /** The C string at the start of a field: everything before the first NUL, or the whole field. */
  function CStr(field: string): string {
    if field == "" || field[0] == NUL then "" else [field[0]] + CStr(field[1..])
  }

  function Zeros(n: nat): string {
    seq(n, _ => NUL)
  }

  /** A text stored in a zeroed field. */
  function Pad(text: string, size: nat): string
    requires |text| <= size
  {
    text + Zeros(size - |text|)
  }

  /** memchr(field, 0, size) found something. */
  predicate Terminated(field: string) {
    NUL in field
  }

  /** log_data_is_valid: what the event thread demands of a record before it is queued. */
  predicate IsValid(d: LogData)
    requires WellSized(d)
  {
    d.event < LOG_EVENT_MAX &&
    (d.dstIpaddr[0] != NUL && Terminated(d.dstIpaddr)) &&
    (d.srcIpaddr[0] != NUL && Terminated(d.srcIpaddr)) &&
    (d.uid[0] != NUL && Terminated(d.uid)) &&
    (d.logDate[0] != NUL && Terminated(d.logDate))
  }

  lemma {:induction false} CStrOfPad(text: string, size: nat)
    requires |text| < size && NUL !in text
    ensures CStr(Pad(text, size)) == text
  {
    if text == "" {
    } else {
      CStrOfPad(text[1..], size - 1);
      assert Pad(text, size)[1..] == Pad(text[1..], size - 1);
    }
  }

  /** A field holds a terminated string exactly when its C string is shorter than the field. */
  lemma {:induction false} TerminatedIffShort(field: string)
    ensures |CStr(field)| <= |field|
    ensures NUL !in CStr(field)
    ensures Terminated(field) <==> |CStr(field)| < |field|
    ensures CStr(field) == field[..|CStr(field)|]
  {
    if field == "" || field[0] == NUL {
    } else {
      TerminatedIffShort(field[1..]);
      assert field == [field[0]] + field[1..];
    }
  }

  /** A record passes the check exactly when its event is known and each text field is a nonempty
      C string that ends inside the field, so every later string operation stays in the record. */
  lemma ValidIffStrings(d: LogData)
    requires WellSized(d)
    ensures IsValid(d) <==>
              && d.event <= 3
              && 0 < |CStr(d.dstIpaddr)| < 16
              && 0 < |CStr(d.srcIpaddr)| < 16
              && 0 < |CStr(d.uid)| < 60
              && 0 < |CStr(d.logDate)| < 28
  {
    TerminatedIffShort(d.dstIpaddr);
    TerminatedIffShort(d.srcIpaddr);
    TerminatedIffShort(d.uid);
    TerminatedIffShort(d.logDate);
  }
}
