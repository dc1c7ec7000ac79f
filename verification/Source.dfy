/** The controller's rows, as the reader hands them over (cmd/projector/reader.go). */
module Source {

  datatype Option<+T> = None | Some(value: T) {
    function GetOr(default: T): T {
      if Some? then value else default
    }
  }

  // `detail` stands for the columns that are only passed through.
  // Instants (`ts`, `started`, `ended`) are in nanoseconds since the epoch.
  datatype Order = Order(id: int, ts: int, orderKey: string, recipe: int, quantity: int)

  datatype FsmEvent = FsmEvent(id: int, ts: int, kind: string, currentState: string,
                               stepFrom: Option<int>, stepTo: Option<int>, orderKey: string, detail: string)

  datatype StepRun = StepRun(id: int, started: int, ended: int, currentState: string, step: int, orderKey: string,
                             faultType: string, faultMessage: string, detail: string)

  datatype Fault = Fault(id: int, ts: int, state: string, step: int, faultType: string, message: string,
                         orderKey: string)

  datatype Toggle = Toggle(id: int, ts: int, inputID: string, valueFrom: int, valueTo: int, currentState: string,
                           currentStep: Option<int>, orderKey: string, detail: string)

  datatype Row =
    | OrderRow(order: Order)
    | EventRow(event: FsmEvent)
    | StepRunRow(stepRun: StepRun)
    | FaultRow(fault: Fault)
    | ToggleRow(toggle: Toggle)

  /** Precedence of two rows that share a timestamp: an order opens its interval first. */
  function Kind(r: Row): nat {
    match r
    case OrderRow(_) => 0
    case EventRow(_) => 1
    case StepRunRow(_) => 2
    case FaultRow(_) => 3
    case ToggleRow(_) => 4
  }

  function SrcID(r: Row): int {
    match r
    case OrderRow(o) => o.id
    case EventRow(e) => e.id
    case StepRunRow(s) => s.id
    case FaultRow(f) => f.id
    case ToggleRow(t) => t.id
  }

  /** The place of a row on the timeline; a step run sits at its end. */
  function At(r: Row): int {
    match r
    case OrderRow(o) => o.ts
    case EventRow(e) => e.ts
    case StepRunRow(s) => s.ended
    case FaultRow(f) => f.ts
    case ToggleRow(t) => t.ts
  }

  /** Whole milliseconds since the epoch, rounded down. */
  function Millis(ns: int): (ms: int)
    ensures ms * 1_000_000 <= ns < (ms + 1) * 1_000_000
  {
    ns / 1_000_000
  }
}
