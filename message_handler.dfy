/**
 * `WebSocketMessageHandler.HandleMessageAsync`: a decision, from one received
 * text message, to at most one broadcast. JSON parsing is the `parse` parameter;
 * every exception the source catches (a parse failure, a root that is not an
 * object, a "type" that is not a string or null) ends in "no broadcast".
 */
module MessageHandler {
  import opened Wrappers
  import opened UserCache
  import opened Connection

  /** The JSON kind of the root's "type" property. */
  datatype TypeProperty = StringValue(s: string) | NullValue | OtherKind

  /**
   * A parsed `JsonDocument`: either a root that is not an object, or an object with
   * its "type" property (if any) and its root re-serialized by `JsonSerializer`.
   */
  datatype Document = NonObject | Object(typeProperty: Option<TypeProperty>, serialized: string)

  /**
   * What the handler asks to broadcast: the re-serialized drawing envelope, or the
   * serialized `{ type = "user:active", userId }` notice.
   */
  datatype BroadcastMessage = Relay(json: string) | UserActiveNotice(userId: UserId)

  /** One call of the manager's broadcast, with the sender's user excluded. */
  datatype BroadcastRequest = BroadcastRequest(message: BroadcastMessage, excludeUserId: UserId)

  predicate IsDrawingType(t: string) {
    t == "draw:start" || t == "draw:move" || t == "draw:end"
  }

  const UserActive: string := "user:active"

  /** The "type" string of a parsed message, when it has one. */
  function TypeOf(doc: Option<Document>): Option<string> {
    if doc.Some? && doc.value.Object? && doc.value.typeProperty.Some? && doc.value.typeProperty.value.StringValue?
    then Some(doc.value.typeProperty.value.s)
    else None
  }

  function HandleMessage(sender: WebSocketConnection, message: string, parse: string -> Option<Document>): (r: Option<BroadcastRequest>)
    // a broadcast happens only for the three drawing types and "user:active"
    ensures r.Some? <==>
      (TypeOf(parse(message)).Some? &&
       (IsDrawingType(TypeOf(parse(message)).value) || TypeOf(parse(message)).value == UserActive))
    // every broadcast excludes the sender's own user
    ensures r.Some? ==> r.value.excludeUserId == sender.userId
    // drawing messages are relayed as the re-serialized envelope
    ensures r.Some? && IsDrawingType(TypeOf(parse(message)).value) ==>
      r.value.message == Relay(parse(message).value.serialized)
    // "user:active" announces the sender's user id
    ensures r.Some? && TypeOf(parse(message)).value == UserActive ==>
      r.value.message == UserActiveNotice(sender.userId)
  {
    match parse(message)
    case None => None                       // JsonException, caught
    case Some(NonObject) => None            // TryGetProperty on a non-object throws, caught
    case Some(Object(typeProperty, serialized)) =>
      match typeProperty
      case None => None                     // no "type": return
      case Some(OtherKind) => None          // GetString on a non-string throws, caught
      case Some(NullValue) => None          // null type: the default branch only logs
      case Some(StringValue(t)) =>
        if IsDrawingType(t) then Some(BroadcastRequest(Relay(serialized), sender.userId))
        else if t == UserActive then Some(BroadcastRequest(UserActiveNotice(sender.userId), sender.userId))
        else None                           // unknown type, "user:inactive" included: logged only
  }

  /** "user:inactive" is not handled: it is logged as unknown and broadcasts nothing. */
  lemma UserInactiveIsIgnored(sender: WebSocketConnection, message: string, parse: string -> Option<Document>)
    requires TypeOf(parse(message)) == Some("user:inactive")
    ensures HandleMessage(sender, message, parse).None?
  {
  }
}
