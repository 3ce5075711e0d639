/** Order identity, order states and the order record shared by the execution kernel. */
module ExecTypes {

  datatype Option<+T> = None | Some(value: T)

  /** Globally unique order reference: the run that minted it and the order's id in that run. */
  datatype Ref = Ref(runId: nat, logicalId: nat)

  datatype Side = Buy | Sell

  /** How many positions an account keeps. */
  const MAX_POSITIONS: nat := 64

  /** Symbols are numbered below this. */
  const MAX_SYMBOLS: nat := 8

  datatype OrderState =
    | NewOrder
    | RiskRejected
    | PendingSend
    | Sent
    | Acknowledged
    | Rejected
    | Unknown
    | PartiallyFilled
    | Filled
    | CancelPending
    | Cancelled
    | Expired

  predicate IsTerminal(s: OrderState) {
    s.RiskRejected? || s.Filled? || s.Cancelled? || s.Rejected? || s.Expired?
  }

  /** Exposure is held from PendingSend until a terminal state; Unknown holds all of it. */
  predicate ReservesExposure(s: OrderState) {
    !IsTerminal(s) && !s.NewOrder?
  }

  /** The order state machine. */
  predicate Legal(a: OrderState, b: OrderState) {
    match a
    case NewOrder => b.RiskRejected? || b.PendingSend?
    case PendingSend => b.Sent?
    case Sent => b.Acknowledged? || b.Rejected? || b.Unknown?
    case Acknowledged => b.PartiallyFilled? || b.Filled? || b.CancelPending? || b.Expired?
    case PartiallyFilled => b.PartiallyFilled? || b.Filled? || b.CancelPending?
    case CancelPending => b.Cancelled? || b.Filled? || b.Unknown?
    case Unknown => IsTerminal(b)
    case _ => false
  }

  /** The number the journal stores for a state. */
  function StateCode(s: OrderState): nat {
    match s
    case NewOrder => 0
    case RiskRejected => 1
    case PendingSend => 2
    case Sent => 3
    case Acknowledged => 4
    case Rejected => 5
    case Unknown => 6
    case PartiallyFilled => 7
    case Filled => 8
    case CancelPending => 9
    case Cancelled => 10
    case Expired => 11
  }

  /** Reads a journalled state code back; codes outside 0..11 are not states. */
  function StateOfCode(c: int): (r: Option<OrderState>)
    ensures r.Some? <==> 0 <= c <= 11
    ensures r.Some? ==> StateCode(r.value) == c
  {
    match c
    case 0 => Some(NewOrder)
    case 1 => Some(RiskRejected)
    case 2 => Some(PendingSend)
    case 3 => Some(Sent)
    case 4 => Some(Acknowledged)
    case 5 => Some(Rejected)
    case 6 => Some(Unknown)
    case 7 => Some(PartiallyFilled)
    case 8 => Some(Filled)
    case 9 => Some(CancelPending)
    case 10 => Some(Cancelled)
    case 11 => Some(Expired)
    case _ => None
  }

  datatype Order = Order(
    ref: Ref,
    symbol: nat,
    requested: int,
    filled: int,
    limitPrice: int,
    state: OrderState,
    lastSeq: nat)
  {
    function Remaining(): int { requested - filled }
  }
}
