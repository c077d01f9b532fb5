/** The single message slot that both pages show above their content, and the
    delay after which a posted message is cleared. */
module Notification {

  /** `{ text, type }`; the empty pair is "no message". */
  datatype Message = Message(text: string, kind: string)

  const NoMessage := Message("", "")

  /** Milliseconds after which `showMessage` clears the slot. */
  const MessageDelay: nat := 5000
}
