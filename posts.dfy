/** The documents one board stores (threads with their nested replies) and the
 *  public views of them that every read returns. */
module Posts {

  datatype Option<+T> = None | Some(value: T)

  /** One element of a thread's `replies` array. */
  datatype Reply = Reply(
    id: nat,
    text: string,
    createdOn: nat,
    deletePassword: string,
    reported: bool)

  /** One thread document of a board's collection. */
  datatype Thread = Thread(
    id: nat,
    text: string,
    createdOn: nat,
    bumpedOn: nat,
    reported: bool,
    deletePassword: string,
    replies: seq<Reply>)

  /** The text a deleted reply keeps in place of what it said. */
  const Tombstone: string := "[deleted]"

  /** A reply as readers see it: the projection drops `reported` and
      `delete_password`, so the type has no place for them. */
  datatype ReplyView = ReplyView(id: nat, text: string, createdOn: nat)

  /** A thread as readers see it, with the derived `replycount`. */
  datatype ThreadView = ThreadView(
    id: nat,
    text: string,
    createdOn: nat,
    bumpedOn: nat,
    replies: seq<ReplyView>,
    replyCount: nat)

  function RedactReply(r: Reply): ReplyView
  {
    ReplyView(r.id, r.text, r.createdOn)
  }

  /** The projection applied to every element of a `replies` array. */
  function RedactReplies(rs: seq<Reply>): (vs: seq<ReplyView>)
    ensures |vs| == |rs|
    ensures forall k :: 0 <= k < |rs| ==> vs[k] == RedactReply(rs[k])
  {
    if rs == [] then [] else [RedactReply(rs[0])] + RedactReplies(rs[1..])
  }

  /** The projection of a read, followed by `replycount = replies.length`.
      No reply is dropped: the count is that of the stored replies. */
  function Redact(t: Thread): (v: ThreadView)
    ensures v.replyCount == |v.replies| == |t.replies|
    ensures forall k :: 0 <= k < |t.replies| ==> v.replies[k] == RedactReply(t.replies[k])
  {
    ThreadView(t.id, t.text, t.createdOn, t.bumpedOn, RedactReplies(t.replies), |t.replies|)
  }

  /** Two replies that agree on everything a reader may see. */
  predicate SamePublicReply(r: Reply, s: Reply)
  {
    r.id == s.id && r.text == s.text && r.createdOn == s.createdOn
  }

  /** Two threads that agree on everything a reader may see, at every level. */
  predicate SamePublic(t: Thread, u: Thread)
  {
    t.id == u.id && t.text == u.text && t.createdOn == u.createdOn && t.bumpedOn == u.bumpedOn &&
    |t.replies| == |u.replies| &&
    forall k :: 0 <= k < |t.replies| ==> SamePublicReply(t.replies[k], u.replies[k])
  }

  /** Redaction keeps exactly the public fields: two threads have the same
      view if and only if they differ at most in `reported` and
      `delete_password`, of the thread or of any of its replies. */
  lemma RedactionKeepsOnlyPublicFields(t: Thread, u: Thread)
    ensures Redact(t) == Redact(u) <==> SamePublic(t, u)
  {
    var vt, vu := Redact(t), Redact(u);
    if SamePublic(t, u) {
      assert forall k :: 0 <= k < |vt.replies| ==> vt.replies[k] == vu.replies[k];
    }
    if vt == vu {
      forall k | 0 <= k < |t.replies|
        ensures SamePublicReply(t.replies[k], u.replies[k])
      {
        assert vt.replies[k] == vu.replies[k];
      }
    }
  }
}
