/**
 * The message envelope (message.go). `Name` selects the listener and `Content` is
 * the application payload; `from`, `to` and `rooms` are routing fields that
 * `Client.Emit` and `Client.Broadcast` overwrite and that never go on the wire.
 */
module Messages {

  /**
   * The payload, reduced to what the broker observes of it: either the JSON text it
   * marshals to, or a value `encoding/json` cannot marshal.
   */
  datatype Payload = Json(text: string) | Unencodable

  class Message {
    const Name: string
    const Content: Payload
    var from: string
    var to: string
    var rooms: seq<string>

    /** A message with the routing fields unset. */
    constructor (name: string, content: Payload)
      ensures Name == name && Content == content
      ensures from == "" && to == "" && rooms == []
    {
      Name := name;
      Content := content;
      from := "";
      to := "";
      rooms := [];
    }
  }
}
