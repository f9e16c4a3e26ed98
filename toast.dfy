/** The `{ message, type }` record the pages keep in their `toast` state. */
module Toasts {
  datatype ToastKind = Success | Error

  datatype Toast = Toast(message: string, kind: ToastKind)
}
