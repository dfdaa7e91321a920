/** The `{ type, text }` message shown by the login and sign-up pages, and the ways their awaited
  * authentication call can end. */
module Notices {
  datatype PageMessage = PageMessage(kind: string, text: string)

  const NO_MESSAGE := PageMessage("", "")

  function Danger(text: string): PageMessage {
    PageMessage("danger", text)
  }

  /** `{ success, message }` resolved by the call, or an exception thrown while awaiting it. */
  datatype CallOutcome = Resolved(success: bool, message: string) | Threw
}
