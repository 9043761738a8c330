/** Matrix events as a sync delivers them, their content decoded. */
module Events {
  import opened Options

  datatype EventType =
    | Redaction | Reaction | Message | Encrypted | Member | RoomName | Topic
    | Other(name: string)

  datatype RelType = Annotation | Replace | Thread | OtherRelation

  datatype RelatesTo = RelatesTo(rel: RelType, event: string, key: string)

  datatype MessageType = Text | Emote | Notice

  /** The content read as a message's: what kind, what it says, what it relates
      to, and the new text of an edit. */
  datatype MessageContent = MessageContent(msgType: MessageType, body: string, relatesTo: Option<RelatesTo>, newBody: Option<string>)

  /** `message` is None when the content cannot be read as a message's;
      `redacts` and `targetInContent` are the two places a redaction names its
      target, empty when absent. */
  datatype Event = Event(
    kind: EventType, stateKey: Option<string>, sender: string, id: string,
    redacts: string, targetInContent: string, message: Option<MessageContent>,
    transaction: string, redactedBecause: bool)

  ghost predicate DistinctIds(tl: seq<Event>) {
    forall i, j :: 0 <= i < j < |tl| ==> tl[i].id != tl[j].id
  }
}
