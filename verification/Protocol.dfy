/** Errors and version numbers shared by the wire formats. */
module Protocol {
  import opened Basics

  const NETWORK_PROTOCOL_VERSION: nat := 1

  datatype TicketFault = TextTooLong | MissingPrefix | InvalidBase64 | MalformedContents | UnsupportedTicketVersion(version: byte)

  datatype ProtocolError =
    | MalformedFrame
    | FrameTooLarge(max: nat, actual: nat)
    | EmptyFrame
    | UnsupportedVersion(found: nat, expected: nat)
    | InvalidTicket(fault: TicketFault)
    | TextTooLarge(max: nat, actual: nat)
}
