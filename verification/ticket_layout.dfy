/**
  The rules a ticket is drawn with.  app.py and ble_escpos.py each spell
  out the same two 32-column strings; they are defined once here.
*/
module TicketLayout {
  /** The 32-column double rule that opens and closes a ticket. */
  const Banner: string := "================================"
  /** The 32-column single rule between the sections. */
  const Rule: string := "--------------------------------"
}
