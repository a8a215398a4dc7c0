/** The signals the two ends of a connection exchange through Xbox Live. */
module Signaling {

  datatype SignalType = Offer | Answer | Candidate | Error | Unknown(name: string)

  datatype Signal = Signal(typ: SignalType, connectionID: nat, data: string, networkID: string)
  {
    function Key(): (key: ConnectionKey)
      ensures key.networkID == networkID && key.connectionID == connectionID
    {
      ConnectionKey(networkID, connectionID)
    }

    /** Whether it carries the remote description. */
    predicate Describes() {
      typ.Offer? || typ.Answer?
    }
  }

  datatype ConnectionKey = ConnectionKey(networkID: string, connectionID: nat)
}
