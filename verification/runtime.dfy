/** The part of org.eclipse.core.runtime.IStatus that the operations
    framework branches on: a severity, a message, and isOK(). */
module Runtime {

  datatype Severity = OK | Info | Warning | Error | Cancel

  datatype Status = Status(severity: Severity, message: string) {
    /** A status is OK exactly when its severity is OK. */
    predicate IsOK() {
      severity == OK
    }
  }

  /** The shared OK status (Status.OK_STATUS). */
  const OkStatus: Status := Status(OK, "")
}
