/** The IMAP mailbox the email monitor reads its replies from: messages,
    the header search the monitor issues, and the two-step deletion it
    performs — `UID STORE <uids> +FLAGS.SILENT (\Deleted)` followed by
    `EXPUNGE` (sections 6.4.6 and 6.4.3 of RFC 3501). */
module Mailbox {
  import opened Strings

  /** A message as the monitor sees it: From header, Subject header,
      unique identifier and the \Deleted flag. */
  datatype Message = Message(from: string, subject: string, uid: nat, deleted: bool)

  type Inbox = seq<Message>

  /** `HEADER From <from> HEADER Subject <subject>`: each header must contain
      the given string (section 6.4.4 of RFC 3501). */
  datatype Criteria = Criteria(from: string, subject: string)

  predicate Matches(m: Message, c: Criteria) {
    Contains(m.from, c.from) && Contains(m.subject, c.subject)
  }

  /** `UID SEARCH`: the identifiers of all matching messages, in mailbox
      order. */
  function Search(box: Inbox, c: Criteria): seq<nat>
    decreases |box|
  {
    if |box| == 0 then []
    else if Matches(box[0], c) then [box[0].uid] + Search(box[1..], c)
    else Search(box[1..], c)
  }

  /** The search returns the identifier of every matching message and only
      those, so it is empty exactly when nothing matches. */
  lemma {:induction false} SearchFindsMatches(box: Inbox, c: Criteria)
    ensures var uids := Search(box, c);
      && (forall i :: 0 <= i < |box| && Matches(box[i], c) ==> box[i].uid in uids)
      && (forall u :: u in uids ==> exists i :: 0 <= i < |box| && Matches(box[i], c) && box[i].uid == u)
      && (|uids| == 0 <==> forall i :: 0 <= i < |box| ==> !Matches(box[i], c))
    decreases |box|
  {
    if |box| > 0 {
      SearchFindsMatches(box[1..], c);
      assert forall i :: 1 <= i < |box| ==> box[i] == box[1..][i - 1];
    }
  }

  function Flag(m: Message, uids: seq<nat>): Message {
    m.(deleted := m.deleted || m.uid in uids)
  }

  /** `UID STORE uids +FLAGS.SILENT (\Deleted)`: adds the flag to the listed
      messages and leaves every other message as it was. */
  function StoreDeleted(box: Inbox, uids: seq<nat>): (r: Inbox)
    ensures |r| == |box|
    ensures forall i :: 0 <= i < |box| ==>
      r[i].uid == box[i].uid && r[i].from == box[i].from && r[i].subject == box[i].subject
    ensures forall i :: 0 <= i < |box| ==> (r[i].deleted <==> box[i].deleted || box[i].uid in uids)
  {
    seq(|box|, i requires 0 <= i < |box| => Flag(box[i], uids))
  }

  /** `EXPUNGE`: drops every message carrying \Deleted, keeping the others in
      order. */
  function Expunge(box: Inbox): (r: Inbox)
    ensures forall m :: m in r ==> m in box && !m.deleted
    ensures forall m :: m in box && !m.deleted ==> m in r
    ensures |r| <= |box|
    decreases |box|
  {
    if |box| == 0 then []
    else
      var rest := Expunge(box[1..]);
      assert forall m :: m in box && m != box[0] ==> m in box[1..];
      if box[0].deleted then rest else [box[0]] + rest
  }

  /** Expunging distributes over concatenation, so the kept messages stay
      in their mailbox order. */
  lemma {:induction false} ExpungeAppend(a: Inbox, b: Inbox)
    ensures Expunge(a + b) == Expunge(a) + Expunge(b)
    decreases |a|
  {
    if |a| == 0 {
      assert a + b == b;
    } else {
      assert (a + b)[0] == a[0] && (a + b)[1..] == a[1..] + b;
      ExpungeAppend(a[1..], b);
    }
  }

  predicate UniqueUids(box: Inbox) {
    forall i, j :: 0 <= i < j < |box| ==> box[i].uid != box[j].uid
  }

  /** Deleting the search result of `c` leaves no message matching `c`, and
      (identifiers being unique, section 2.3.1.1 of RFC 3501) keeps every
      message that neither matches nor was already flagged. */
  lemma DeleteMatchesLeavesNone(box: Inbox, c: Criteria)
    ensures forall m :: m in Expunge(StoreDeleted(box, Search(box, c))) ==> !Matches(m, c)
    ensures UniqueUids(box) ==>
      forall m :: m in box && !m.deleted && !Matches(m, c) ==> m in Expunge(StoreDeleted(box, Search(box, c)))
  {
    var uids := Search(box, c);
    SearchFindsMatches(box, c);
    var flagged := StoreDeleted(box, uids);
    forall m | m in Expunge(flagged)
      ensures !Matches(m, c)
    {
      var i :| 0 <= i < |flagged| && flagged[i] == m;
      assert m.uid == box[i].uid && m.from == box[i].from && m.subject == box[i].subject;
    }
    if UniqueUids(box) {
      forall m | m in box && !m.deleted && !Matches(m, c)
        ensures m in Expunge(flagged)
      {
        var i :| 0 <= i < |box| && box[i] == m;
        assert flagged[i] == m;
      }
    }
  }
}
