/** One SSH login event as the service reports it, and the positional
    parsers that turn a matching sshd log line into such a record. */
module SshHistory {
  import opened GoStrings

  /** The two outcome labels of the service's status constants. */
  const StatusSuccess: string := "Success"
  const StatusFailed: string := "Failed"

  /** The markers that decide a line's shape, in order of priority. */
  const FailedPasswordMarker: string := "Failed password for"
  const ConnectionClosedMarker: string := "Connection closed by authenticating user"
  const AcceptedMarker: string := "Accepted "

  /** The separator after which a failure line's message starts. */
  const MessageSeparator: string := ": "

  /** A parsed line has fewer fields than this and yields the zero record. */
  const MinFields: nat := 14

  /** The event time: unset on the zero record, otherwise the file's year and
      the line's "Mon day hh:mm:ss" text, to be read in the configured zone. */
  datatype Timestamp = Unset | Local(year: int, dateStr: string)

  datatype SSHHistory = SSHHistory(
    date: Timestamp,
    dateStr: string,
    area: string,
    user: string,
    authMode: string,
    address: string,
    port: string,
    status: string,
    message: string)

  /** Go's zero value of the record. */
  const Zero: SSHHistory := SSHHistory(Unset, "", "", "", "", "", "", "", "")

  /** The three line shapes of the log query, and lines of none of them. */
  datatype Shape = FailedSecure | FailedAuth | Accepted | Unmatched

  /** Classification by marker, "Failed password for" first, then
      "Connection closed by authenticating user", then "Accepted ". */
  function Classify(line: string): (sh: Shape)
    ensures sh == FailedSecure <==> Contains(line, FailedPasswordMarker)
    ensures sh == FailedAuth <==>
      !Contains(line, FailedPasswordMarker) && Contains(line, ConnectionClosedMarker)
    ensures sh == Accepted <==>
      !Contains(line, FailedPasswordMarker) && !Contains(line, ConnectionClosedMarker)
      && Contains(line, AcceptedMarker)
  {
    if Contains(line, FailedPasswordMarker) then FailedSecure
    else if Contains(line, ConnectionClosedMarker) then FailedAuth
    else if Contains(line, AcceptedMarker) then Accepted
    else Unmatched
  }

  /** The month, day and time fields joined back with single spaces. */
  function DateStrOf(parts: seq<string>): string
    requires |parts| >= 3
  {
    parts[0] + " " + parts[1] + " " + parts[2]
  }

  /** The text after the first ": " of a failure line, up to the next one. */
  function MessageOf(line: string): (m: string)
    ensures Contains(line, MessageSeparator) ==> m == SplitSecond(line, MessageSeparator)
    ensures !Contains(line, MessageSeparator) ==> m == ""
  {
    if Contains(line, MessageSeparator) then SplitSecond(line, MessageSeparator) else ""
  }

  /** loadSuccessDatas: an "Accepted" line; auth mode, user, address and port
      are fields 6, 8, 10 and 12. */
  function LoadSuccessDatas(line: string): (r: SSHHistory)
    ensures r.address != [] <==> |Fields(line)| >= MinFields
    ensures r.address == [] ==> r == Zero
    ensures r.address != [] ==>
      r.status == StatusSuccess && r.message == "" && r.area == "" && r.date == Unset
  {
    var parts := Fields(line);
    if |parts| < MinFields then Zero
    else
      SSHHistory(Unset, DateStrOf(parts), "", parts[8], parts[6], parts[10], parts[12],
                 StatusSuccess, "")
  }

  /** loadFailedAuthDatas: a "Connection closed by authenticating user" line;
      auth mode, user, address and port are fields 8, 10, 11 and 13. */
  function LoadFailedAuthDatas(line: string): (r: SSHHistory)
    ensures r.address != [] <==> |Fields(line)| >= MinFields
    ensures r.address == [] ==> r == Zero
    ensures r.address != [] ==>
      r.status == StatusFailed && r.message == MessageOf(line) && r.area == "" && r.date == Unset
  {
    var parts := Fields(line);
    if |parts| < MinFields then Zero
    else
      SSHHistory(Unset, DateStrOf(parts), "", parts[10], parts[8], parts[11], parts[13],
                 StatusFailed, MessageOf(line))
  }

  /** loadFailedSecureDatas: a "Failed password for" line; auth mode, user,
      address and port are fields 6, 8, 10 and 12. */
  function LoadFailedSecureDatas(line: string): (r: SSHHistory)
    ensures r.address != [] <==> |Fields(line)| >= MinFields
    ensures r.address == [] ==> r == Zero
    ensures r.address != [] ==>
      r.status == StatusFailed && r.message == MessageOf(line) && r.area == "" && r.date == Unset
  {
    var parts := Fields(line);
    if |parts| < MinFields then Zero
    else
      SSHHistory(Unset, DateStrOf(parts), "", parts[8], parts[6], parts[10], parts[12],
                 StatusFailed, MessageOf(line))
  }

  /** The switch of loadSSHData: the parser chosen by the line's shape; a line
      of no shape leaves the zero record. */
  function ParseLine(line: string): (r: SSHHistory)
    ensures r.address != [] ==> Classify(line) != Unmatched && |Fields(line)| >= MinFields
    ensures r.address != [] ==> (r.status == StatusSuccess <==> Classify(line) == Accepted)
    ensures r.address != [] ==> r.status == StatusSuccess || r.status == StatusFailed
    ensures Classify(line) != Unmatched && |Fields(line)| >= MinFields ==> r.address != []
  {
    match Classify(line)
    case FailedSecure => LoadFailedSecureDatas(line)
    case FailedAuth => LoadFailedAuthDatas(line)
    case Accepted => LoadSuccessDatas(line)
    case Unmatched => Zero
  }

  /** A line whose fields are `ts`, separated by any runs of white space
      (syslog pads a one-digit day with a second space), parses to the fields
      at the success-line positions. */
  lemma SuccessLineFields(lead: string, ts: seq<string>, gs: seq<string>, trail: string)
    requires WellSpaced(lead, ts, gs, trail) && |ts| >= MinFields
    ensures var r := LoadSuccessDatas(lead + Interleave(ts, gs) + trail);
            r.dateStr == ts[0] + " " + ts[1] + " " + ts[2]
            && r.authMode == ts[6] && r.user == ts[8] && r.address == ts[10] && r.port == ts[12]
            && r.status == StatusSuccess
  {
    FieldsOfSpaced(lead, ts, gs, trail);
  }

  /** The same for a failed-password line, which also carries its message. */
  lemma FailedSecureLineFields(lead: string, ts: seq<string>, gs: seq<string>, trail: string)
    requires WellSpaced(lead, ts, gs, trail) && |ts| >= MinFields
    ensures var line := lead + Interleave(ts, gs) + trail;
            var r := LoadFailedSecureDatas(line);
            r.dateStr == ts[0] + " " + ts[1] + " " + ts[2]
            && r.authMode == ts[6] && r.user == ts[8] && r.address == ts[10] && r.port == ts[12]
            && r.status == StatusFailed && r.message == MessageOf(line)
  {
    FieldsOfSpaced(lead, ts, gs, trail);
  }

  /** The same for a connection-closed line, whose fields sit at 8, 10, 11, 13. */
  lemma FailedAuthLineFields(lead: string, ts: seq<string>, gs: seq<string>, trail: string)
    requires WellSpaced(lead, ts, gs, trail) && |ts| >= MinFields
    ensures var line := lead + Interleave(ts, gs) + trail;
            var r := LoadFailedAuthDatas(line);
            r.dateStr == ts[0] + " " + ts[1] + " " + ts[2]
            && r.authMode == ts[8] && r.user == ts[10] && r.address == ts[11] && r.port == ts[13]
            && r.status == StatusFailed && r.message == MessageOf(line)
  {
    FieldsOfSpaced(lead, ts, gs, trail);
  }
}
