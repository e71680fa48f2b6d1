/** The records shared by the flow kernel, the search and the matching loop. */
module FlowTypes {

  /** Outcome of an operation that can raise an error and abort its transaction. */
  datatype Result<+T> = Ok(value: T) | Err(error: Failure) {
    predicate IsFailure() {
      Err?
    }

    function PropagateFailure<U>(): Result<U>
      requires Err?
    {
      Err(error)
    }

    function Extract(): T
      requires Ok?
    {
      value
    }
  }

  datatype Option<+T> = None | Some(value: T)

  datatype Failure =
    | MaxDimReached
    | NegativeQuantity
    | OidFoundTwice
    | ZeroPrice
    | CannotBeRounded
    | ExhaustedUndefined
    | ShouldExhaust
    | LastNodesDiffer
    | FlowAboveStock
    | QualityEmpty
    | SameQualities
    | SameOrderOtherOid
    | FlowEmpty
    | NotTheBegin
    | NotTheEnd
    | NotMatching
    | LessThanTwoPartners
    | StockMissing
    | OrderMissing
    | StockNotUnique
    | StockTooSmall
    | NothingExhausted
    | LimitNotObserved
    | BadText
    | OutOfRange

  const FLOW_MAX_DIM: nat := 64
  const QTTFLOW_UNDEFINED: int := -1

  /** An int64 column or field. */
  type Int64 = q: int | -0x8000_0000_0000_0000 <= q <= INT64_MAX

  const INT64_MAX: int := 0x7FFF_FFFF_FFFF_FFFF

  /** The largest int64 that is also a double; the next double is out of range. */
  const INT64_MAX_DOUBLE: int := 0x7FFF_FFFF_FFFF_FC00

  const ORDER_LIMIT: nat := 1
  const ORDER_BEST: nat := 2

  /** The two low bits of an order type. */
  function OrderType(kind: nat): nat {
    kind % 4
  }

  /** Bit 4: the quantity provided is not limited by a stock. */
  predicate IsNoQttLimit(kind: nat) {
    kind / 4 % 2 == 1
  }

  /** Bit 8: the price of the order is ignored. */
  predicate IsIgnoreOmega(kind: nat) {
    kind / 8 % 2 == 1
  }

  /** A node of a flow. Its flow is kept beside it, in Tflow.flowr. */
  datatype Tfl = Tfl(
    kind: nat,
    id: int,
    oid: int,
    own: int,
    qttRequ: nat,
    qttProv: nat,
    qtt: Int64,
    proba: real)
  {
    predicate IsLimit() {
      OrderType(kind) == ORDER_LIMIT
    }
  }

  /** A flow: its nodes in cyclic order, the last one being the new order, and
      for each node the quantity it provides. */
  datatype FlowRecord = FlowRecord(x: seq<Tfl>, flowr: seq<int>)

  type Tflow = f: FlowRecord | |f.x| == |f.flowr| witness FlowRecord([], [])

  const EMPTY_FLOW: Tflow := FlowRecord([], [])

  datatype Status = Empty | NoLoop | Refused | Undefined | Draft

  datatype CycleKind = CycleLimit | CycleBest

  /** The flow can be executed: at least two nodes, and each provides something. */
  predicate IsDraft(f: Tflow) {
    |f.x| >= 2 && forall i :: 0 <= i < |f.flowr| ==> f.flowr[i] > 0
  }

  /** The index before `i` on a cycle of `n` nodes. */
  function Before(i: nat, n: nat): (j: nat)
    requires i < n
    ensures j < n
  {
    if i == 0 then n - 1 else i - 1
  }

  /** No stock appears twice. */
  predicate DistinctOids(x: seq<Tfl>) {
    forall i, j :: 0 <= i < j < |x| ==> x[i].oid != x[j].oid
  }
}
