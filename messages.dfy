/** The message record the extractor produces (one row of the frame with
    columns date, time, sender, message) and the filter that drops media
    placeholders and deletion notices. */
module Messages {
  import opened Text
  import opened Frames

  /** `date` and `time` are the strings captured from the header, unparsed. */
  datatype Message = Message(date: string, time: string, sender: string, text: string)

  const MediaOmitted := "<Media omitted>"
  const DeletedThisMessage := "deleted this message"
  const MessageWasDeleted := "message was deleted"

  /** The rows `filter_messages` keeps: no media placeholder (case-sensitive)
      and neither deletion notice in any letter case. */
  predicate Keep(m: Message) {
    NoMedia(m) && NotDeletedThis(m) && NotWasDeleted(m)
  }

  predicate NoMedia(m: Message) { !Contains(m.text, MediaOmitted) }
  predicate NotDeletedThis(m: Message) { !ContainsIgnoreCase(m.text, DeletedThisMessage) }
  predicate NotWasDeleted(m: Message) { !ContainsIgnoreCase(m.text, MessageWasDeleted) }

  /** The three successive masks of `filter_messages`. Together they keep
      exactly the rows satisfying `Keep`, in their original order. */
  function FilterMessages(ms: seq<Message>): (r: seq<Message>)
    ensures r == Where(ms, Keep)
  {
    var noMedia := Where(ms, NoMedia);
    var noDeleted := Where(noMedia, NotDeletedThis);
    MasksCompose(ms);
    Where(noDeleted, NotWasDeleted)
  }

  lemma MasksCompose(ms: seq<Message>)
    ensures Where(Where(Where(ms, NoMedia), NotDeletedThis), NotWasDeleted) == Where(ms, Keep)
  {
    WhereWhere(ms, NoMedia, NotDeletedThis, m => NoMedia(m) && NotDeletedThis(m));
    WhereWhere(ms, m => NoMedia(m) && NotDeletedThis(m), NotWasDeleted, Keep);
  }

  /** A message whose body is the media placeholder is dropped. */
  lemma MediaPlaceholderDropped(m: Message)
    requires m.text == MediaOmitted
    ensures !Keep(m)
  {
    assert LitAt(m.text, 0, MediaOmitted);
  }

  /** A body containing "deleted this message" anywhere, in any letter case,
      is dropped by the second mask. */
  lemma DeletedThisDropped(m: Message, pre: string, post: string)
    requires Lower(m.text) == pre + DeletedThisMessage + post
    ensures !NotDeletedThis(m) && !Keep(m)
  {
    var t := Lower(m.text);
    assert t[|pre|..|pre| + |DeletedThisMessage|] == DeletedThisMessage;
    assert LitAt(t, |pre|, DeletedThisMessage);
  }

  /** A body containing "message was deleted" anywhere, in any letter case,
      is dropped by the third mask. */
  lemma WasDeletedDropped(m: Message, pre: string, post: string)
    requires Lower(m.text) == pre + MessageWasDeleted + post
    ensures !NotWasDeleted(m) && !Keep(m)
  {
    var t := Lower(m.text);
    assert t[|pre|..|pre| + |MessageWasDeleted|] == MessageWasDeleted;
    assert LitAt(t, |pre|, MessageWasDeleted);
  }

  /** The notice left on the sender's side, "You deleted this message", is
      dropped whatever its letter case. */
  lemma YouDeletedDropped(m: Message)
    requires Lower(m.text) == "you " + DeletedThisMessage
    ensures !Keep(m)
  {
    assert Lower(m.text) == "you " + DeletedThisMessage + "";
    DeletedThisDropped(m, "you ", "");
  }

  /** A message whose body reads "this message was deleted" in any letter
      case is dropped. */
  lemma DeletionNoticeDropped(m: Message)
    requires Lower(m.text) == "this " + MessageWasDeleted
    ensures !Keep(m)
  {
    assert Lower(m.text) == "this " + MessageWasDeleted + "";
    WasDeletedDropped(m, "this ", "");
  }
}
