/** The transient notifications the screens raise. */
module Toasts {
  import opened Wrappers

  datatype ToastKind = Warning | Danger | Success

  /** A toast with its kind, optional title and body text. */
  datatype Toast = Toast(kind: ToastKind, title: Option<string>, body: string)

  /** The `Error` toast the contact forms raise for a missing field. */
  function ErrorToast(body: string): (t: Toast)
    ensures t.kind == Danger && t.title == Some("Error") && t.body == body
  {
    Toast(Danger, Some("Error"), body)
  }
}
