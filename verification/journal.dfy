/** The journal record: a fixed tuple of integers whose meaning depends on its kind. */
module Journal {
  import opened ExecTypes

  datatype Record = Record(
    ts: nat,
    kind: nat,
    reserved: nat,
    symbol: nat,
    runId: nat,
    logicalId: nat,
    ticket: nat,
    a: int,
    b: int,
    c: int,
    d: int)

  const COMMAND: nat := 1
  const ACKNOWLEDGEMENT: nat := 2
  const REJECTION: nat := 3
  const FILL: nat := 4
  const CANCEL: nat := 5
  const REPLACE: nat := 6
  const ORDER_STATE: nat := 7
  const POSITION_UPDATE: nat := 8
  const PNL_UPDATE: nat := 9
  const ACCOUNT_UPDATE: nat := 10

  function RefOf(r: Record): Ref {
    Ref(r.runId, r.logicalId)
  }
}
