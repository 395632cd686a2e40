/** OperationHistoryEvent: an immutable notification of (event code, history,
    operation). The history and the operation are references of types H and
    O; None stands for a null argument. */
module Events {
  import opened Wrappers

  const AboutToExecute: int := 1
  const AboutToRedo: int := 2
  const AboutToUndo: int := 3
  const Done: int := 4
  const OperationAdded: int := 5
  const OperationChanged: int := 6
  const OperationNotOk: int := 7
  const OperationRemoved: int := 8
  const Redone: int := 9
  const Undone: int := 10

  /** The ten codes the framework defines, in declaration order. */
  const EventCodes: seq<int> := [AboutToExecute, AboutToRedo, AboutToUndo, Done, OperationAdded,
                                 OperationChanged, OperationNotOk, OperationRemoved, Redone, Undone]

  /** Which argument the failing null check was about. */
  datatype Argument = HistoryArgument | OperationArgument

  /** The NullPointerException the constructor throws, tagged with the check
      that threw it. */
  datatype EventError = NullPointerException(argument: Argument)

  /** An event has no mutators: once built, its three parts never change. */
  datatype OperationHistoryEvent<H, O> = OperationHistoryEvent(code: int, history: H, operation: O) {
    function GetEventType(): int {
      code
    }

    function GetHistory(): H {
      history
    }

    function GetOperation(): O {
      operation
    }
  }

  /** The constructor: a null history is rejected first, then a null
      operation; the code is not checked. On success the getters return
      exactly the arguments. */
  function NewEvent<H, O>(code: int, history: Option<H>, operation: Option<O>): (r: Result<OperationHistoryEvent<H, O>, EventError>)
    ensures r.Success? <==> history.Some? && operation.Some?
    ensures history.None? ==> r == Failure(NullPointerException(HistoryArgument))
    ensures history.Some? && operation.None? ==> r == Failure(NullPointerException(OperationArgument))
    ensures r.Success? ==> r.value.GetEventType() == code
                           && Some(r.value.GetHistory()) == history
                           && Some(r.value.GetOperation()) == operation
  {
    if history.None? then Failure(NullPointerException(HistoryArgument))
    else if operation.None? then Failure(NullPointerException(OperationArgument))
    else Success(OperationHistoryEvent(code, history.value, operation.value))
  }

  /** The ten codes are pairwise distinct and are 1 through 10. */
  lemma EventCodesDistinct()
    ensures |EventCodes| == 10
    ensures forall i :: 0 <= i < |EventCodes| ==> EventCodes[i] == i + 1
    ensures forall i, j :: 0 <= i < j < |EventCodes| ==> EventCodes[i] != EventCodes[j]
  {
  }

  /** Any integer code, one of the ten or not, yields an event once both
      references are present. */
  lemma AnyCodeAccepted<H, O>(code: int, history: H, operation: O)
    ensures NewEvent(code, Some(history), Some(operation)) == Success(OperationHistoryEvent(code, history, operation))
  {
  }
}
