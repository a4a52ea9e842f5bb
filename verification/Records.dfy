/** The stored records and the rows that queries return. Times are nanoseconds. */
module Records {

  datatype Option<+T> = None | Some(value: T)

  datatype Alert = Alert(id: int, ts: int, ruleName: string, pid: int, parentPid: int, commandLine: string,
                         executable: string, processName: string, user: string, severity: string, engine: string)

  datatype Event = Event(id: int, ts: int, category: string, eventId: int, opcode: int, fields: map<string, string>)

  /** Statistics of a group of rows folded into one. */
  datatype Burst = Burst(count: int, span: int, lastSeen: int, memberIDs: seq<int>)

  datatype Row =
    | AlertRow(alert: Alert, burst: Option<Burst>)
    | EventRow(event: Event, burst: Option<Burst>)
  {
    function Ts(): int {
      if AlertRow? then alert.ts else event.ts
    }

    function Id(): int {
      if AlertRow? then alert.id else event.id
    }
  }

  /** An alert with nothing said about its process but the PIDs. */
  function BareAlert(id: int, ts: int, ruleName: string, pid: int, parentPid: int): Row {
    AlertRow(Alert(id, ts, ruleName, pid, parentPid, "", "", "", "", "", ""), None)
  }

  /** A key that is not in a Go map reads as the empty string. */
  function FieldOf(e: Event, name: string): string {
    if name in e.fields then e.fields[name] else ""
  }

  /** The canonical action of an event. */
  function Action(e: Event): string {
    if e.category == "Process" then
      if e.eventId == 1 then "PROCESS_CREATE"
      else if e.eventId == 5 then "PROCESS_TERMINATE"
      else if e.opcode == 1 then "PROCESS_EXEC"
      else if e.opcode == 2 then "PROCESS_EXIT"
      else "PROCESS"
    else if e.category == "File" then
      if e.eventId == 11 then "FILE_CREATE"
      else if e.eventId == 23 then "FILE_DELETE"
      else if e.eventId == 65 then "FILE_CHANGE"
      else if e.eventId == 71 then "FILE_RENAME"
      else "FILE"
    else if e.category == "Network" then
      if e.eventId == 3 then "NETWORK_CONNECT" else "NETWORK"
    else if e.category == "Dns" then
      if e.eventId == 22 then "DNS_QUERY" else "DNS"
    else if e.category == "" then "EVENT"
    else ""
  }

  /** Rows in time order, ties in any order. */
  ghost predicate Sorted(rows: seq<Row>) {
    forall i, j :: 0 <= i < j < |rows| ==> rows[i].Ts() <= rows[j].Ts()
  }

  /** Rows at pairwise different times. */
  ghost predicate StrictlySorted(rows: seq<Row>) {
    forall i, j :: 0 <= i < j < |rows| ==> rows[i].Ts() < rows[j].Ts()
  }
}
