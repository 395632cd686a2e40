/** LinearUndoViolationDetector: an operation approver for strict linear
    undo and redo. Undoing (redoing) an operation that is not on top of the
    undo (redo) stack of one of its contexts is a violation, and a concrete
    detector decides through a hook whether to let it through. The first
    non-OK hook answer vetoes; otherwise the answer is OK. */
module LinearUndo {
  import opened Wrappers
  import opened Runtime
  import opened Operations

  /** The two queries the detector puts to an IOperationHistory: the
      operation on top of a context's undo stack and of its redo stack
      (None where the history answers null). How the history keeps its
      stacks is not part of this model. */
  datatype OperationHistory<!C(==)> = OperationHistory(
    undoOperation: C -> Option<AbstractOperation<C>>,
    redoOperation: C -> Option<AbstractOperation<C>>)

  datatype Direction = Undo | Redo

  /** The operation on top of the stack that `dir` consults for `context`. */
  function Top<C(==)>(history: OperationHistory<C>, dir: Direction, context: C): Option<AbstractOperation<C>> {
    match dir
    case Undo => history.undoOperation(context)
    case Redo => history.redoOperation(context)
  }

  /** `op` is that top, by reference identity. */
  predicate OnTop<C(==)>(history: OperationHistory<C>, dir: Direction, op: AbstractOperation<C>, context: C) {
    Top(history, dir, context) == Some(op)
  }

  /** The contexts of `cs`, in list order, for which `op` is not on top:
      the ones a strict linear policy objects to. */
  ghost function OffTop<C>(history: OperationHistory<C>, dir: Direction, op: AbstractOperation<C>, cs: seq<C>): (r: seq<C>)
    ensures |r| <= |cs|
    ensures forall i :: 0 <= i < |r| ==> r[i] in cs && !OnTop(history, dir, op, r[i])
    ensures forall i :: 0 <= i < |cs| && !OnTop(history, dir, op, cs[i]) ==> cs[i] in r
  {
    if cs == [] then []
    else
      assert cs == [cs[0]] + cs[1..];
      (if OnTop(history, dir, op, cs[0]) then [] else [cs[0]]) + OffTop(history, dir, op, cs[1..])
  }

  /** A detector is given by its two hooks, allowLinearUndoViolation and
      allowLinearRedoViolation, which a concrete subclass supplies. */
  class LinearUndoViolationDetector<C(==)> {
    const allowLinearUndoViolation: (AbstractOperation<C>, C, OperationHistory<C>) -> Status
    const allowLinearRedoViolation: (AbstractOperation<C>, C, OperationHistory<C>) -> Status

    constructor (allowUndo: (AbstractOperation<C>, C, OperationHistory<C>) -> Status,
                 allowRedo: (AbstractOperation<C>, C, OperationHistory<C>) -> Status)
      ensures allowLinearUndoViolation == allowUndo && allowLinearRedoViolation == allowRedo
    {
      allowLinearUndoViolation := allowUndo;
      allowLinearRedoViolation := allowRedo;
    }

    /** The hook that `dir` consults. */
    function Allow(dir: Direction, op: AbstractOperation<C>, context: C, history: OperationHistory<C>): Status {
      match dir
      case Undo => allowLinearUndoViolation(op, context, history)
      case Redo => allowLinearRedoViolation(op, context, history)
    }

    /** A context lets the operation through: either the operation is on
        top for it, or the hook permits the violation. */
    predicate Approves(dir: Direction, op: AbstractOperation<C>, history: OperationHistory<C>, context: C) {
      OnTop(history, dir, op, context) || Allow(dir, op, context, history).IsOK()
    }

    /** The status the detector answers for the contexts `cs`, taken in order. */
    function Verdict(dir: Direction, op: AbstractOperation<C>, history: OperationHistory<C>, cs: seq<C>): Status {
      if cs == [] then OkStatus
      else if !OnTop(history, dir, op, cs[0]) && !Allow(dir, op, cs[0], history).IsOK() then
        Allow(dir, op, cs[0], history)
      else Verdict(dir, op, history, cs[1..])
    }

    /** The contexts, in order, for which the hook is called. */
    ghost function Consulted(dir: Direction, op: AbstractOperation<C>, history: OperationHistory<C>, cs: seq<C>): seq<C> {
      if cs == [] then []
      else if OnTop(history, dir, op, cs[0]) then Consulted(dir, op, history, cs[1..])
      else if Allow(dir, op, cs[0], history).IsOK() then [cs[0]] + Consulted(dir, op, history, cs[1..])
      else [cs[0]]
    }

    /** proceedUndoing: asks allowLinearUndoViolation about each context
        whose undo top is not `op`, and returns the first non-OK answer. */
    method ProceedUndoing(op: AbstractOperation<C>, history: OperationHistory<C>) returns (s: Status, ghost asked: seq<C>)
      ensures s == Verdict(Undo, op, history, op.contexts)
      ensures asked == Consulted(Undo, op, history, op.contexts)
    {
      var contexts := op.GetContexts();
      ghost var cs := op.contexts;
      asked := [];
      for i := 0 to contexts.Length
        invariant contexts[..] == cs == op.contexts
        invariant Verdict(Undo, op, history, cs) == Verdict(Undo, op, history, cs[i..])
        invariant Consulted(Undo, op, history, cs) == asked + Consulted(Undo, op, history, cs[i..])
      {
        var context := contexts[i];
        assert cs[i..][0] == context && cs[i..][1..] == cs[i + 1..];
        if history.undoOperation(context) != Some(op) {
          var status := allowLinearUndoViolation(op, context, history);
          asked := asked + [context];
          if !status.IsOK() {
            return status, asked;
          }
        }
      }
      return OkStatus, asked;
    }

    /** proceedRedoing: the same rule over the redo tops and
        allowLinearRedoViolation. */
    method ProceedRedoing(op: AbstractOperation<C>, history: OperationHistory<C>) returns (s: Status, ghost asked: seq<C>)
      ensures s == Verdict(Redo, op, history, op.contexts)
      ensures asked == Consulted(Redo, op, history, op.contexts)
    {
      var contexts := op.GetContexts();
      ghost var cs := op.contexts;
      asked := [];
      for i := 0 to contexts.Length
        invariant contexts[..] == cs == op.contexts
        invariant Verdict(Redo, op, history, cs) == Verdict(Redo, op, history, cs[i..])
        invariant Consulted(Redo, op, history, cs) == asked + Consulted(Redo, op, history, cs[i..])
      {
        var context := contexts[i];
        assert cs[i..][0] == context && cs[i..][1..] == cs[i + 1..];
        if history.redoOperation(context) != Some(op) {
          var status := allowLinearRedoViolation(op, context, history);
          asked := asked + [context];
          if !status.IsOK() {
            return status, asked;
          }
        }
      }
      return OkStatus, asked;
    }

    /** An operation with no contexts is approved without consulting a hook. */
    lemma NoContextsApproved(dir: Direction, op: AbstractOperation<C>, history: OperationHistory<C>)
      ensures Verdict(dir, op, history, []) == OkStatus
      ensures Consulted(dir, op, history, []) == []
    {
    }

    /** When `op` is on top for every context, the answer is OK and no hook
        is called. */
    lemma {:induction false} AllOnTopApproved(dir: Direction, op: AbstractOperation<C>, history: OperationHistory<C>, cs: seq<C>)
      requires forall i :: 0 <= i < |cs| ==> OnTop(history, dir, op, cs[i])
      ensures Verdict(dir, op, history, cs) == OkStatus
      ensures Consulted(dir, op, history, cs) == []
    {
      if cs != [] {
        AllOnTopApproved(dir, op, history, cs[1..]);
      }
    }

    /** The answer is OK exactly when every context approves, and then it is
        the OK status itself. */
    lemma {:induction false} VerdictOkIff(dir: Direction, op: AbstractOperation<C>, history: OperationHistory<C>, cs: seq<C>)
      ensures Verdict(dir, op, history, cs).IsOK() <==> forall i :: 0 <= i < |cs| ==> Approves(dir, op, history, cs[i])
      ensures Verdict(dir, op, history, cs).IsOK() ==> Verdict(dir, op, history, cs) == OkStatus
    {
      if cs != [] {
        VerdictOkIff(dir, op, history, cs[1..]);
        assert forall i :: 1 <= i < |cs| ==> cs[i] == cs[1..][i - 1];
      }
    }

    /** If context k is the first that does not approve, the answer is its
        hook's status, and nothing after it is examined: the contexts after
        k change neither the answer nor the hooks called. */
    lemma {:induction false} FirstVetoDecides(dir: Direction, op: AbstractOperation<C>, history: OperationHistory<C>, cs: seq<C>, k: nat)
      requires k < |cs|
      requires !Approves(dir, op, history, cs[k])
      requires forall j :: 0 <= j < k ==> Approves(dir, op, history, cs[j])
      ensures Verdict(dir, op, history, cs) == Allow(dir, op, cs[k], history)
      ensures Verdict(dir, op, history, cs) == Verdict(dir, op, history, cs[..k + 1])
      ensures Consulted(dir, op, history, cs) == Consulted(dir, op, history, cs[..k + 1])
    {
      if k > 0 {
        assert forall j :: 0 <= j < k - 1 ==> cs[1..][j] == cs[j + 1];
        FirstVetoDecides(dir, op, history, cs[1..], k - 1);
        assert cs[1..][..k] == cs[..k + 1][1..];
      }
    }

    /** A non-OK answer always has a first vetoing context behind it. */
    lemma {:induction false} VetoHasFirstCause(dir: Direction, op: AbstractOperation<C>, history: OperationHistory<C>, cs: seq<C>)
      requires !Verdict(dir, op, history, cs).IsOK()
      ensures exists k :: 0 <= k < |cs| && !Approves(dir, op, history, cs[k])
                && (forall j :: 0 <= j < k ==> Approves(dir, op, history, cs[j]))
                && Verdict(dir, op, history, cs) == Allow(dir, op, cs[k], history)
    {
      if !Approves(dir, op, history, cs[0]) {
        assert !Approves(dir, op, history, cs[0]) && Verdict(dir, op, history, cs) == Allow(dir, op, cs[0], history);
      } else {
        VetoHasFirstCause(dir, op, history, cs[1..]);
        var k :| 0 <= k < |cs[1..]| && !Approves(dir, op, history, cs[1..][k])
                 && (forall j :: 0 <= j < k ==> Approves(dir, op, history, cs[1..][j]))
                 && Verdict(dir, op, history, cs[1..]) == Allow(dir, op, cs[1..][k], history);
        assert forall j :: 1 <= j < k + 1 ==> cs[j] == cs[1..][j - 1];
        assert !Approves(dir, op, history, cs[k + 1]);
      }
    }

    /** The hook is only called for contexts of the operation whose top is
        not the operation. */
    lemma {:induction false} ConsultedOnlyOffTop(dir: Direction, op: AbstractOperation<C>, history: OperationHistory<C>, cs: seq<C>)
      ensures forall i :: 0 <= i < |Consulted(dir, op, history, cs)| ==>
                Consulted(dir, op, history, cs)[i] in cs && !OnTop(history, dir, op, Consulted(dir, op, history, cs)[i])
    {
      if cs != [] {
        ConsultedOnlyOffTop(dir, op, history, cs[1..]);
      }
    }

    /** When every context approves, the hook is called for every context
        whose top is not the operation, in list order. */
    lemma {:induction false} AllApproveConsultsEveryOffTop(dir: Direction, op: AbstractOperation<C>, history: OperationHistory<C>, cs: seq<C>)
      requires forall i :: 0 <= i < |cs| ==> Approves(dir, op, history, cs[i])
      ensures Consulted(dir, op, history, cs) == OffTop(history, dir, op, cs)
    {
      if cs != [] {
        assert forall i :: 0 <= i < |cs| - 1 ==> cs[1..][i] == cs[i + 1];
        AllApproveConsultsEveryOffTop(dir, op, history, cs[1..]);
      }
    }

    /** When context k is the first that does not approve, the hook is called
        for every context before k whose top is not the operation, in list
        order, and then for context k, the last one asked. */
    lemma {:induction false} FirstVetoConsultsEveryOffTop(dir: Direction, op: AbstractOperation<C>, history: OperationHistory<C>, cs: seq<C>, k: nat)
      requires k < |cs|
      requires !Approves(dir, op, history, cs[k])
      requires forall j :: 0 <= j < k ==> Approves(dir, op, history, cs[j])
      ensures Consulted(dir, op, history, cs) == OffTop(history, dir, op, cs[..k]) + [cs[k]]
    {
      if k > 0 {
        assert forall j :: 0 <= j < k - 1 ==> cs[1..][j] == cs[j + 1];
        FirstVetoConsultsEveryOffTop(dir, op, history, cs[1..], k - 1);
        assert cs[..k][0] == cs[0] && cs[..k][1..] == cs[1..][..k - 1];
      }
    }
  }
}
