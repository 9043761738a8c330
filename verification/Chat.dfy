/** What the chat should show of a room's timeline, said of the events' own fields
    and of nothing else. */
module Chat {
  import opened Events
  import opened Options

  datatype Shown = Shown(key: string, count: nat, mine: bool)

  datatype Kind = Plain | EmoteKind | NoticeKind | Change

  datatype Display = Display(
    event: string, sender: string, kind: Kind, body: string, edited: bool, redacted: bool,
    replies: nat, reactions: seq<Shown>)

  const ENCRYPTED := "encrypted message; this console cannot decrypt it"

  // --- which events count

  predicate Redacts(ev: Event, id: string) {
    ev.kind == Redaction && (ev.redacts == id != "" || (ev.redacts == "" && ev.targetInContent == id))
  }

  /** Some redaction names it, wherever it stands, or the server marked it. */
  ghost predicate Redacted(tl: seq<Event>, id: string) {
    exists i :: 0 <= i < |tl| && (Redacts(tl[i], id) || (tl[i].redactedBecause && tl[i].id == id))
  }

  /** No redaction names event `j`, and it is not marked, nor is an earlier one of
      the same ID. */
  ghost predicate Counts(tl: seq<Event>, j: nat)
    requires j < |tl|
  {
    && (forall i :: 0 <= i < |tl| ==> !Redacts(tl[i], tl[j].id))
    && (forall i :: 0 <= i <= j && tl[i].redactedBecause ==> tl[i].id != tl[j].id)
  }

  // --- what they say of another

  predicate Relates(ev: Event, rel: RelType, target: string) {
    ev.message.Some? && ev.message.value.relatesTo.Some?
    && ev.message.value.relatesTo.value.rel == rel && ev.message.value.relatesTo.value.event == target
  }

  predicate IsEdit(ev: Event, target: string) {
    ev.kind == Message && Relates(ev, Replace, target) && ev.message.value.newBody.Some?
  }

  predicate IsReply(ev: Event, target: string) {
    Relates(ev, Thread, target)
  }

  predicate IsReaction(ev: Event, target: string, key: string) {
    ev.kind == Reaction && Relates(ev, Annotation, target) && ev.message.value.relatesTo.value.key == key
  }

  ghost predicate EditedBy(tl: seq<Event>, target: string, j: nat)
    requires j < |tl|
  {
    Counts(tl, j) && IsEdit(tl[j], target)
  }

  ghost predicate ReactedBy(tl: seq<Event>, target: string, key: string, j: nat)
    requires j < |tl|
  {
    Counts(tl, j) && IsReaction(tl[j], target, key)
  }

  ghost function RepliesTo(tl: seq<Event>, target: string): set<int> {
    set j | 0 <= j < |tl| && Counts(tl, j) && IsReply(tl[j], target)
  }

  ghost function Reactors(tl: seq<Event>, target: string, key: string): set<string> {
    set j | 0 <= j < |tl| && ReactedBy(tl, target, key, j) :: tl[j].sender
  }

  // --- what is shown, and how

  /** Which events are shown: messages that are not edits or thread replies, redacted
      ones whatever they were, encrypted ones, and the changes `describe` words. */
  ghost predicate IsShown(tl: seq<Event>, i: nat, describe: Event -> Option<Display>)
    requires i < |tl|
  {
    var ev := tl[i];
    match ev.kind
    case Message =>
      Redacted(tl, ev.id)
      || (ev.message.Some?
          && (ev.message.value.relatesTo.Some? ==>
                ev.message.value.relatesTo.value.rel != Replace && ev.message.value.relatesTo.value.rel != Thread))
    case Encrypted => true
    case Member => describe(ev).Some?
    case RoomName => describe(ev).Some?
    case Topic => describe(ev).Some?
    case _ => false
  }

  /** The text is the last counting edit's, and then it is marked edited; with no
      such edit it is the message's own. */
  ghost predicate HasText(tl: seq<Event>, i: nat, d: Display)
    requires i < |tl| && tl[i].message.Some?
  {
    if d.edited
    then exists j :: 0 <= j < |tl| && LastEdit(tl, tl[i].id, j) && Some(d.body) == tl[j].message.value.newBody
    else d.body == tl[i].message.value.body && forall j :: 0 <= j < |tl| ==> !EditedBy(tl, tl[i].id, j)
  }

  ghost predicate LastEdit(tl: seq<Event>, target: string, j: nat)
    requires j < |tl|
  {
    EditedBy(tl, target, j) && forall k :: j < k < |tl| ==> !EditedBy(tl, target, k)
  }

  predicate Blank(d: Display) {
    d.redacted && d.body == "" && d.kind == Plain && !d.edited
  }

  ghost predicate LooksLike(tl: seq<Event>, i: nat, describe: Event -> Option<Display>, d: Display)
    requires i < |tl|
  {
    var ev := tl[i];
    match ev.kind
    case Message =>
      && d.sender == ev.sender
      && if Redacted(tl, ev.id) then Blank(d)
         else
           && !d.redacted && ev.message.Some? && HasText(tl, i, d)
           && (d.kind == EmoteKind <==> ev.message.value.msgType == Emote)
           && (d.kind == NoticeKind <==> ev.message.value.msgType == Notice) && d.kind != Change
    case Encrypted =>
      && d.sender == ev.sender
      && if Redacted(tl, ev.id) then Blank(d)
         else !d.redacted && d.kind == NoticeKind && d.body == ENCRYPTED && !d.edited
    case _ => Some(d) == Worded(describe(ev), d)
  }

  /** As it was worded, but for what is filled in of every event. */
  function Worded(w: Option<Display>, d: Display): Option<Display> {
    match w
    case None => None
    case Some(x) => Some(x.(event := d.event, replies := d.replies, reactions := d.reactions))
  }

  /** Each key that a counting reaction used, once, in the order first used, with
      how many people used it and whether the user is one of them. */
  ghost predicate Tallied(tl: seq<Event>, target: string, self: string, list: seq<Shown>) {
    && (forall a, b :: 0 <= a < b < |list| ==> list[a].key != list[b].key && UsedFirst(tl, target, list[a].key, list[b].key))
    && (forall key :: Lists(list, key) <==> Reactors(tl, target, key) != {})
    && (forall a :: 0 <= a < |list| ==>
          list[a].count == |Reactors(tl, target, list[a].key)| && (list[a].mine <==> self in Reactors(tl, target, list[a].key)))
  }

  predicate Lists(list: seq<Shown>, key: string) {
    exists a :: 0 <= a < |list| && list[a].key == key
  }

  ghost predicate UsedFirst(tl: seq<Event>, target: string, one: string, other: string) {
    exists j :: 0 <= j < |tl| && ReactedBy(tl, target, one, j) && forall k :: 0 <= k <= j ==> !ReactedBy(tl, target, other, k)
  }

  ghost predicate Depicts(tl: seq<Event>, i: nat, self: string, describe: Event -> Option<Display>, d: Display)
    requires i < |tl|
  {
    && d.event == tl[i].id && LooksLike(tl, i, describe, d)
    && d.replies == |RepliesTo(tl, tl[i].id)| && Tallied(tl, tl[i].id, self, d.reactions)
  }

  /** `out` is what is shown, event by event: `at` says which events, each once, in
      the timeline's order, all that are to be shown and no others. */
  ghost predicate Pictures(tl: seq<Event>, self: string, describe: Event -> Option<Display>, at: seq<nat>, out: seq<Display>) {
    && |at| == |out|
    && (forall a, b :: 0 <= a < b < |at| ==> at[a] < at[b])
    && (forall a :: 0 <= a < |at| ==> at[a] < |tl| && IsShown(tl, at[a], describe) && Depicts(tl, at[a], self, describe, out[a]))
    && (forall i :: 0 <= i < |tl| && IsShown(tl, i, describe) ==> i in at)
  }
}
