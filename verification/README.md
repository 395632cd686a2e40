# Undo/redo operations framework (org.eclipse.core.commands.operations) in Dafny

This project models the toolkit-independent core of Eclipse's undo/redo
operation framework:

- **AbstractOperation** (`operations.dfy`, module `Operations`): the base
  undoable operation, a class whose fields are the ordered list of undo
  contexts (`contexts: seq<C>`) and the label (`labelText`, since `label`
  is a Dafny keyword). `addContext` appends a context unless it is already
  present, `removeContext` drops its first occurrence, `hasContext` scans the
  list and tests the asymmetric `matches` relation in both directions.
  Contexts are values of a type `C` whose `==` plays the part of Java's
  `equals`; `matches` is a parameter, `matches(a, b)` standing for
  `a.matches(b)`, with no property assumed (not even symmetry). The pure
  functions `WithContext` and `RemoveFirst` give the list after each update,
  and the lemmas beside them state what the updates keep: order, absence of
  duplicates, and which contexts are reported afterwards.
- **LinearUndoViolationDetector** (`linear_undo.dfy`, module `LinearUndo`):
  the approver enforcing strict linear undo/redo. A detector is a class whose
  two constant fields are the hooks `allowLinearUndoViolation` and
  `allowLinearRedoViolation` that a concrete subclass supplies. The history
  is seen only through `getUndoOperation`/`getRedoOperation`, an oracle from a
  context to an optional operation; operations are class references, compared
  by identity as the source does. `ProceedUndoing`/`ProceedRedoing` are the
  source's loops with early return; each is proved equal to the specification
  function `Verdict`, and its ghost result records the contexts for which
  the hook was called (`Consulted`). The lemmas characterise `Verdict`: OK
  exactly when every context has the operation on top or an OK hook answer,
  otherwise the status of the first vetoing context, with nothing after it
  examined.
- **OperationHistoryEvent** (`events.dfy`, module `Events`): the immutable
  (code, history, operation) record, its ten event codes 1..10, and the
  checked constructor `NewEvent`, which returns a `NullPointerException`
  failure for a null history (checked first) or a null operation, and accepts
  any integer code.
- `runtime.dfy` (module `Runtime`) holds the part of `IStatus` the detector
  branches on (severity and `isOK`), and `wrappers.dfy` the `Option` and
  `Result` datatypes.

The event codes take the values written in OperationHistoryEvent.java:
ABOUT_TO_EXECUTE is 1, ABOUT_TO_REDO 2, ABOUT_TO_UNDO 3, and so on up to
UNDONE at 10.

## Model

| member | source | states |
|---|---|---|
| Operations.AbstractOperation.constructor | bundles/org.eclipse.core.commands/src/org/eclipse/core/commands/operations/AbstractOperation.java:42-44 | a new operation has the given label, so `GetLabel` returns it, and an empty (hence duplicate-free) context list |
| Operations.AbstractOperation.AddContext | bundles/org.eclipse.core.commands/src/org/eclipse/core/commands/operations/AbstractOperation.java:51-55 | the list becomes WithContext of the old list: unchanged if the context was present, else the context appended; a duplicate-free list stays duplicate-free; the label is untouched |
| Operations.WithContext | bundles/org.eclipse.core.commands/src/org/eclipse/core/commands/operations/AbstractOperation.java:51-55 | after adding, the context is present, earlier entries keep their positions, the length grows by one exactly when the context was absent, and the new context is last |
| Operations.WithContextKeepsNoDuplicates | bundles/org.eclipse.core.commands/src/org/eclipse/core/commands/operations/AbstractOperation.java:51-55 | adding a context to a duplicate-free list leaves it duplicate-free |
| Operations.AbstractOperation.RemoveContext | bundles/org.eclipse.core.commands/src/org/eclipse/core/commands/operations/AbstractOperation.java:153-155 | the list becomes RemoveFirst of the old list; on a duplicate-free list the context is absent afterwards and the list stays duplicate-free |
| Operations.RemoveFirst | bundles/org.eclipse.core.commands/src/org/eclipse/core/commands/operations/AbstractOperation.java:153-155 | removal shortens the list by one exactly when the context was present |
| Operations.RemoveFirstMultiset | bundles/org.eclipse.core.commands/src/org/eclipse/core/commands/operations/AbstractOperation.java:153-155 | removal takes away one copy of the context, if there is one, and nothing else |
| Operations.RemoveAbsent | bundles/org.eclipse.core.commands/src/org/eclipse/core/commands/operations/AbstractOperation.java:153-155 | removing a context that is not in the list changes nothing |
| Operations.RemoveFirstOccurrence | bundles/org.eclipse.core.commands/src/org/eclipse/core/commands/operations/AbstractOperation.java:153-155 | removing a present context drops exactly its first occurrence; the others keep their order |
| Operations.RemoveKeepsNoDuplicates | bundles/org.eclipse.core.commands/src/org/eclipse/core/commands/operations/AbstractOperation.java:153-155 | on a duplicate-free list the removed context is absent afterwards and no duplicate appears |
| Operations.AbstractOperation.HasContext | bundles/org.eclipse.core.commands/src/org/eclipse/core/commands/operations/AbstractOperation.java:131-142 | the answer is true iff some stored context o has matches(context, o) or matches(o, context) |
| Operations.EmptyHasNoContext | bundles/org.eclipse.core.commands/src/org/eclipse/core/commands/operations/AbstractOperation.java:131-142 | with no stored contexts hasContext answers false for every argument and relation |
| Operations.AddedContextIsReported | bundles/org.eclipse.core.commands/src/org/eclipse/core/commands/operations/AbstractOperation.java:131-142 | after addContext(c), every d with matches(d, c) or matches(c, d) is reported; with a reflexive matches, c itself |
| Operations.AbstractOperation.GetContexts | bundles/org.eclipse.core.commands/src/org/eclipse/core/commands/operations/AbstractOperation.java:102-105 | a freshly allocated array with exactly the list's contexts, same order and length |
| Operations.AbstractOperation.SetLabel | bundles/org.eclipse.core.commands/src/org/eclipse/core/commands/operations/AbstractOperation.java:112-124 | afterwards `GetLabel` (getLabel) returns the given name and the contexts are unchanged; `AddContext`, `RemoveContext` and `Dispose` leave what `GetLabel` returns as it was |
| Operations.AbstractOperation.CanExecute | bundles/org.eclipse.core.commands/src/org/eclipse/core/commands/operations/AbstractOperation.java:62-64 | the default capability is true |
| Operations.AbstractOperation.CanRedo | bundles/org.eclipse.core.commands/src/org/eclipse/core/commands/operations/AbstractOperation.java:71-73 | the default capability is true |
| Operations.AbstractOperation.CanUndo | bundles/org.eclipse.core.commands/src/org/eclipse/core/commands/operations/AbstractOperation.java:80-82 | the default capability is true |
| Operations.AbstractOperation.Dispose | bundles/org.eclipse.core.commands/src/org/eclipse/core/commands/operations/AbstractOperation.java:89-91 | disposing leaves the contexts and the label as they were |
| Operations.Listing | bundles/org.eclipse.core.commands/src/org/eclipse/core/commands/operations/AbstractOperation.java:177-180 | the rendering of the contexts is empty exactly when there are none, and otherwise ends with a comma |
| Operations.AbstractOperation.ToString | bundles/org.eclipse.core.commands/src/org/eclipse/core/commands/operations/AbstractOperation.java:172-183 | the string is `GetLabel()`, "(", each context's rendering followed by ",", then ")" |
| LinearUndo.LinearUndoViolationDetector.constructor | bundles/org.eclipse.core.commands/src/org/eclipse/core/commands/operations/LinearUndoViolationDetector.java:33-44 | a detector is given by its undo and redo hooks |
| LinearUndo.LinearUndoViolationDetector.ProceedUndoing | bundles/org.eclipse.core.commands/src/org/eclipse/core/commands/operations/LinearUndoViolationDetector.java:76-89 | the status returned is Verdict over the undo tops and allowLinearUndoViolation, and the hook is called for exactly the contexts Consulted names, in order |
| LinearUndo.LinearUndoViolationDetector.ProceedRedoing | bundles/org.eclipse.core.commands/src/org/eclipse/core/commands/operations/LinearUndoViolationDetector.java:53-66 | the same, over the redo tops and allowLinearRedoViolation |
| LinearUndo.LinearUndoViolationDetector.NoContextsApproved | bundles/org.eclipse.core.commands/src/org/eclipse/core/commands/operations/LinearUndoViolationDetector.java:53-89 | an operation with no contexts is approved for undo and redo without calling a hook |
| LinearUndo.LinearUndoViolationDetector.AllOnTopApproved | bundles/org.eclipse.core.commands/src/org/eclipse/core/commands/operations/LinearUndoViolationDetector.java:76-89 | when the operation is on top for every context the answer is OK and no hook is called |
| LinearUndo.LinearUndoViolationDetector.VerdictOkIff | bundles/org.eclipse.core.commands/src/org/eclipse/core/commands/operations/LinearUndoViolationDetector.java:76-89 | the answer is OK iff every context has the operation on top or an OK hook answer; an OK answer is the OK status itself |
| LinearUndo.LinearUndoViolationDetector.FirstVetoDecides | bundles/org.eclipse.core.commands/src/org/eclipse/core/commands/operations/LinearUndoViolationDetector.java:80-86 | the answer is the hook status of the first context, in list order, that is off top with a non-OK hook answer; later contexts change neither the answer nor the hooks called |
| LinearUndo.LinearUndoViolationDetector.VetoHasFirstCause | bundles/org.eclipse.core.commands/src/org/eclipse/core/commands/operations/LinearUndoViolationDetector.java:80-88 | every non-OK answer comes from such a first vetoing context |
| LinearUndo.LinearUndoViolationDetector.ConsultedOnlyOffTop | bundles/org.eclipse.core.commands/src/org/eclipse/core/commands/operations/LinearUndoViolationDetector.java:81-82 | the hook is only called for contexts of the operation whose top is not the operation |
| LinearUndo.LinearUndoViolationDetector.AllApproveConsultsEveryOffTop | bundles/org.eclipse.core.commands/src/org/eclipse/core/commands/operations/LinearUndoViolationDetector.java:76-89 | when every context approves, the hook is called for exactly the contexts whose top is not the operation, in list order |
| LinearUndo.LinearUndoViolationDetector.FirstVetoConsultsEveryOffTop | bundles/org.eclipse.core.commands/src/org/eclipse/core/commands/operations/LinearUndoViolationDetector.java:80-86 | when context k is the first that does not approve, the hook is called for exactly the off-top contexts before k, in list order, and then for context k, the last one asked |
| Events.NewEvent | bundles/org.eclipse.core.commands/src/org/eclipse/core/commands/operations/OperationHistoryEvent.java:131-169 | construction fails with NullPointerException for a null history, checked first, and then for a null operation; it succeeds otherwise, and the getters `GetEventType`, `GetHistory` and `GetOperation` return exactly the constructor arguments |
| Events.EventCodesDistinct | bundles/org.eclipse.core.commands/src/org/eclipse/core/commands/operations/OperationHistoryEvent.java:37-113 | the ten event codes are 1 through 10 and pairwise distinct |
| Events.AnyCodeAccepted | bundles/org.eclipse.core.commands/src/org/eclipse/core/commands/operations/OperationHistoryEvent.java:131-140 | any integer code is accepted when history and operation are present |

## Left out

- The abstract `execute`, `undo` and `redo` of AbstractOperation.java:99,150,163: their bodies belong to subclasses and take progress-monitor and UI-info tokens that are opaque.
- The operation history's own stacks (pushing, popping, clearing redo, limits, disposal on eviction): only its two top-of-stack queries are modelled, as an oracle. No history implementation is part of this model.
- The `info` (IAdaptable) argument of `proceedUndoing`/`proceedRedoing` and of the hooks: it is passed through unchanged, and the model folds it into the hook functions.
- Side effects of the hooks (a concrete detector may prompt the user): the hooks are pure functions of (operation, context, history).
- Null contexts: the context type has no null, so the `Assert.isNotNull` check at AbstractOperation.java:132 and `addContext(null)` are not modelled.
- Overriding: subclasses may override the capability predicates, `getLabel` and `getContexts`, and write the protected `contexts` field; the model has the defaults only, and the duplicate-free invariant is proved preserved, not assumed.
- `toString` of each context: a parameter `render` of `ToString`; string-buffer details are not modelled.
- The detector accepts any `IUndoableOperation`; the model gives it `AbstractOperation` references.
- `Status.OK_STATUS` carries plug-in id and code fields that are not modelled; `OkStatus` is the OK severity with an empty message.
- Null labels: Java accepts `new AbstractOperation(null)` and `setLabel(null)` (AbstractOperation.java:42-44,122-124), after which `getLabel` returns null and `toString` appends "null" (AbstractOperation.java:174); a Dafny `string` has no null, so these cases are not modelled.
- Listener registration and thread safety: concurrency is not modelled.
- UriSchemeHandlerPreferencePage.java, DropHandlerDescriptor.java, WritableValue.java, MarkerDescription.java, IViewerValueProperty.java, IDetailsPageProvider.java, ViewPerspective.java and IImportWizard.java are not part of this model: they are UI, extension-registry and workspace glue outside the operations framework.
