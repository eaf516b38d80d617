/** One board's collection as a sequence of thread documents, and the effect of
 *  each store call the route handlers make on it: every write finds the first
 *  document that matches a filter and updates or removes that one document. */
module Store {
  import opened Posts

  /** Index of the first element that satisfies `p`, as a store query that
      stops at its first hit. */
  function FirstMatch<T>(s: seq<T>, p: T -> bool): (r: Option<nat>)
    ensures r.Some? ==> r.value < |s| && p(s[r.value])
    ensures r.Some? ==> forall j :: 0 <= j < r.value ==> !p(s[j])
    ensures r.None? <==> forall j :: 0 <= j < |s| ==> !p(s[j])
  {
    if s == [] then None
    else if p(s[0]) then Some(0)
    else match FirstMatch(s[1..], p)
      case None => None
      case Some(k) => Some(k + 1)
  }

  // ---------------------------------------------------------------- filters

  /** `{ _id: thread_id }` */
  function ThreadFilter(id: nat): Thread -> bool
  {
    (t: Thread) => t.id == id
  }

  /** `{ _id: thread_id, delete_password: delete_password }` */
  function ThreadPasswordFilter(id: nat, password: string): Thread -> bool
  {
    (t: Thread) => t.id == id && t.deletePassword == password
  }

  /** The reply condition `{ _id: reply_id }`. */
  function ReplyFilter(replyId: nat): Reply -> bool
  {
    (r: Reply) => r.id == replyId
  }

  /** The reply condition `{ $elemMatch: { _id: reply_id, delete_password: … } }`. */
  function ReplyPasswordFilter(replyId: nat, password: string): Reply -> bool
  {
    (r: Reply) => r.id == replyId && r.deletePassword == password
  }

  /** A thread filter with a condition on its replies array: the thread id
      matches and some reply satisfies `q`. */
  function ThreadWithReply(id: nat, q: Reply -> bool): Thread -> bool
  {
    (t: Thread) => t.id == id && FirstMatch(t.replies, q).Some?
  }

  // ------------------------------------------------------------- invariants

  predicate HasThread(ts: seq<Thread>, id: nat)
  {
    exists i :: 0 <= i < |ts| && ts[i].id == id
  }

  predicate UniqueReplyIds(rs: seq<Reply>)
  {
    forall k, l :: 0 <= k < l < |rs| ==> rs[k].id != rs[l].id
  }

  /** Thread ids are unique in the board, reply ids unique in their thread
      (both are fresh object ids when created). */
  predicate WellFormed(ts: seq<Thread>)
  {
    (forall i, j :: 0 <= i < j < |ts| ==> ts[i].id != ts[j].id) &&
    (forall i :: 0 <= i < |ts| ==> UniqueReplyIds(ts[i].replies))
  }

  /** No reply anywhere on the board carries `replyId` yet. */
  predicate ReplyIdUnused(ts: seq<Thread>, replyId: nat)
  {
    forall i, k :: 0 <= i < |ts| && 0 <= k < |ts[i].replies| ==> ts[i].replies[k].id != replyId
  }

  /** Every thread was bumped no earlier than it and its replies were created. */
  predicate Chronological(ts: seq<Thread>)
  {
    forall i :: 0 <= i < |ts| ==>
      ts[i].createdOn <= ts[i].bumpedOn &&
      forall k :: 0 <= k < |ts[i].replies| ==> ts[i].replies[k].createdOn <= ts[i].bumpedOn
  }

  /** The clock reads `now` or later than every bump on the board. */
  predicate NotAfter(ts: seq<Thread>, now: nat)
  {
    forall i :: 0 <= i < |ts| ==> ts[i].bumpedOn <= now
  }

  /** What a write may do to a reply: keep its id, creation time and
      password, replace its text by the tombstone, and set (never clear) its
      report flag. */
  predicate ReplyEvolves(r: Reply, s: Reply)
  {
    s.id == r.id && s.createdOn == r.createdOn && s.deletePassword == r.deletePassword &&
    (s.text == r.text || s.text == Tombstone) &&
    (r.reported ==> s.reported)
  }

  /** What a write other than a delete may do to a thread: keep its id, text,
      creation time and password, never clear its report flag, and never drop,
      reorder or renumber its replies. */
  predicate ThreadEvolves(t: Thread, u: Thread)
  {
    u.id == t.id && u.text == t.text && u.createdOn == t.createdOn &&
    u.deletePassword == t.deletePassword &&
    (t.reported ==> u.reported) &&
    |t.replies| <= |u.replies| &&
    forall k :: 0 <= k < |t.replies| ==> ReplyEvolves(t.replies[k], u.replies[k])
  }

  predicate Evolves(ts: seq<Thread>, us: seq<Thread>)
  {
    |us| == |ts| && forall i :: 0 <= i < |ts| ==> ThreadEvolves(ts[i], us[i])
  }

  // ----------------------------------------------------------------- writes

  /** The collection after a write, and whether the filter matched a document
      (`doc.value !== null`). */
  datatype Write = Write(threads: seq<Thread>, matched: bool)

  /** The document `insertOne` stores for a new thread. */
  function NewThread(id: nat, text: string, password: string, now: nat): (t: Thread)
    ensures t.id == id && t.text == text && t.deletePassword == password
    ensures t.createdOn == t.bumpedOn == now && !t.reported && t.replies == []
  {
    Thread(id, text, now, now, false, password, [])
  }

  /** The reply document `$push`ed by a new reply. */
  function NewReply(id: nat, text: string, password: string, now: nat): (r: Reply)
    ensures r.id == id && r.text == text && r.deletePassword == password
    ensures r.createdOn == now && !r.reported
  {
    Reply(id, text, now, password, false)
  }

  /** `findOneAndDelete({ _id, delete_password })`. */
  function RemoveThread(ts: seq<Thread>, id: nat, password: string): (w: Write)
    ensures w.matched <==>
      exists i :: 0 <= i < |ts| && ts[i].id == id && ts[i].deletePassword == password
    ensures !w.matched ==> w.threads == ts
    ensures w.matched ==>
      exists i :: 0 <= i < |ts| && ts[i].id == id && ts[i].deletePassword == password &&
        w.threads == ts[..i] + ts[i + 1..]
  {
    match FirstMatch(ts, ThreadPasswordFilter(id, password))
    case None => Write(ts, false)
    case Some(i) => Write(ts[..i] + ts[i + 1..], true)
  }

  /** `findOneAndUpdate({ _id }, { $set: { reported: true } })`. */
  function FlagThread(ts: seq<Thread>, id: nat): (w: Write)
    ensures w.matched <==> HasThread(ts, id)
    ensures !w.matched ==> w.threads == ts
    ensures w.matched ==>
      exists i :: 0 <= i < |ts| && ts[i].id == id && w.threads == ts[i := ts[i].(reported := true)]
  {
    match FirstMatch(ts, ThreadFilter(id))
    case None => Write(ts, false)
    case Some(i) => Write(ts[i := ts[i].(reported := true)], true)
  }

  /** `findOneAndUpdate({ _id }, { $set: { bumped_on }, $push: { replies } })`:
      the append and the bump are one write. */
  function PushReply(ts: seq<Thread>, id: nat, r: Reply, now: nat): (w: Write)
    ensures w.matched <==> HasThread(ts, id)
    ensures !w.matched ==> w.threads == ts
    ensures w.matched ==>
      exists i :: 0 <= i < |ts| && ts[i].id == id &&
        w.threads == ts[i := ts[i].(bumpedOn := now, replies := ts[i].replies + [r])]
  {
    match FirstMatch(ts, ThreadFilter(id))
    case None => Write(ts, false)
    case Some(i) => Write(ts[i := ts[i].(bumpedOn := now, replies := ts[i].replies + [r])], true)
  }

  /** The board with reply `k` of thread `i` replaced by `r`: the effect of a
      `$set` through the positional operator `replies.$`. */
  function SetReply(ts: seq<Thread>, i: nat, k: nat, r: Reply): seq<Thread>
    requires i < |ts| && k < |ts[i].replies|
  {
    ts[i := ts[i].(replies := ts[i].replies[k := r])]
  }

  /** `findOneAndUpdate({ _id, replies: { $elemMatch: { _id, delete_password } } },
      { $set: { "replies.$.text": "[deleted]" } })`: the positional `$` is the
      first reply that satisfies the `$elemMatch`. */
  function TombstoneReply(ts: seq<Thread>, id: nat, replyId: nat, password: string): (w: Write)
    ensures w.matched <==>
      exists i, k :: 0 <= i < |ts| && 0 <= k < |ts[i].replies| && ts[i].id == id &&
        ts[i].replies[k].id == replyId && ts[i].replies[k].deletePassword == password
    ensures !w.matched ==> w.threads == ts
    ensures w.matched ==>
      exists i, k :: 0 <= i < |ts| && 0 <= k < |ts[i].replies| && ts[i].id == id &&
        ts[i].replies[k].id == replyId && ts[i].replies[k].deletePassword == password &&
        w.threads == SetReply(ts, i, k, ts[i].replies[k].(text := Tombstone))
  {
    var q := ReplyPasswordFilter(replyId, password);
    match FirstMatch(ts, ThreadWithReply(id, q))
    case None =>
      assert forall i, k :: 0 <= i < |ts| && 0 <= k < |ts[i].replies| && ts[i].id == id ==> !q(ts[i].replies[k]);
      Write(ts, false)
    case Some(i) =>
      var k := FirstMatch(ts[i].replies, q).value;
      Write(SetReply(ts, i, k, ts[i].replies[k].(text := Tombstone)), true)
  }

  /** `findOneAndUpdate({ _id, "replies._id": reply_id },
      { $set: { "replies.$.reported": true } })`. */
  function FlagReply(ts: seq<Thread>, id: nat, replyId: nat): (w: Write)
    ensures w.matched <==>
      exists i, k :: 0 <= i < |ts| && 0 <= k < |ts[i].replies| && ts[i].id == id &&
        ts[i].replies[k].id == replyId
    ensures !w.matched ==> w.threads == ts
    ensures w.matched ==>
      exists i, k :: 0 <= i < |ts| && 0 <= k < |ts[i].replies| && ts[i].id == id &&
        ts[i].replies[k].id == replyId &&
        w.threads == SetReply(ts, i, k, ts[i].replies[k].(reported := true))
  {
    var q := ReplyFilter(replyId);
    match FirstMatch(ts, ThreadWithReply(id, q))
    case None =>
      assert forall i, k :: 0 <= i < |ts| && 0 <= k < |ts[i].replies| && ts[i].id == id ==> !q(ts[i].replies[k]);
      Write(ts, false)
    case Some(i) =>
      var k := FirstMatch(ts[i].replies, q).value;
      Write(SetReply(ts, i, k, ts[i].replies[k].(reported := true)), true)
  }

  // ----------------------------------------------------------------- lemmas

  /** A first-match query gives the same answer on two collections whose
      elements agree on the filter. */
  lemma {:induction false} FirstMatchAgrees<T>(s: seq<T>, u: seq<T>, p: T -> bool)
    requires |s| == |u|
    requires forall j :: 0 <= j < |s| ==> p(s[j]) == p(u[j])
    ensures FirstMatch(s, p) == FirstMatch(u, p)
  {
    if s != [] {
      FirstMatchAgrees(s[1..], u[1..], p);
    }
  }

  /** Two boards with the same threads and replies at the same positions
      under the same ids. */
  predicate SameIds(ts: seq<Thread>, us: seq<Thread>)
  {
    |us| == |ts| &&
    forall i :: 0 <= i < |ts| ==>
      us[i].id == ts[i].id && |us[i].replies| == |ts[i].replies| &&
      forall k :: 0 <= k < |ts[i].replies| ==> us[i].replies[k].id == ts[i].replies[k].id
  }

  lemma SameIdsKeepWellFormed(ts: seq<Thread>, us: seq<Thread>)
    requires WellFormed(ts) && SameIds(ts, us)
    ensures WellFormed(us)
  {
    forall i | 0 <= i < |us|
      ensures UniqueReplyIds(us[i].replies)
    {
      assert UniqueReplyIds(ts[i].replies);
    }
  }

  /** A reply rewrite that keeps the reply's id keeps every id on the board
      and keeps the board as it evolves when the reply evolves. */
  lemma SetReplyEvolves(ts: seq<Thread>, i: nat, k: nat, r: Reply)
    requires i < |ts| && k < |ts[i].replies| && ReplyEvolves(ts[i].replies[k], r)
    ensures SameIds(ts, SetReply(ts, i, k, r)) && Evolves(ts, SetReply(ts, i, k, r))
  {
    var us := SetReply(ts, i, k, r);
    forall j | 0 <= j < |ts|
      ensures ThreadEvolves(ts[j], us[j])
      ensures forall l :: 0 <= l < |ts[j].replies| ==> us[j].replies[l].id == ts[j].replies[l].id
    {
      if j == i {
        forall l | 0 <= l < |ts[i].replies|
          ensures ReplyEvolves(ts[i].replies[l], us[i].replies[l])
        {
          if l != k {
            assert us[i].replies[l] == ts[i].replies[l];
          }
        }
      }
    }
  }

  /** A reply rewrite touches that one reply: every thread keeps its bump
      time, its flag and its number of replies, and every other reply stays. */
  lemma SetReplyFrame(ts: seq<Thread>, i: nat, k: nat, r: Reply)
    requires i < |ts| && k < |ts[i].replies|
    ensures var us := SetReply(ts, i, k, r);
      |us| == |ts| &&
      forall j :: 0 <= j < |ts| ==>
        us[j].bumpedOn == ts[j].bumpedOn && us[j].reported == ts[j].reported &&
        |us[j].replies| == |ts[j].replies| &&
        forall l :: 0 <= l < |ts[j].replies| ==>
          us[j].replies[l] == if j == i && l == k then r else ts[j].replies[l]
  {
  }

  /** Where each remaining thread sits after the thread at `i` is removed. */
  lemma RemoveAtShifts(ts: seq<Thread>, i: nat)
    requires i < |ts|
    ensures var us := ts[..i] + ts[i + 1..];
      |us| == |ts| - 1 &&
      (forall j :: 0 <= j < i ==> us[j] == ts[j]) &&
      (forall j :: i <= j < |us| ==> us[j] == ts[j + 1])
  {
  }

  /** Deleting a thread removes exactly the one thread with that id and
      leaves every other thread, in order; the board stays well formed and no
      thread with that id is left to read. */
  lemma RemoveThreadExact(ts: seq<Thread>, id: nat, password: string)
    requires WellFormed(ts)
    ensures var w := RemoveThread(ts, id, password);
      WellFormed(w.threads) &&
      (Chronological(ts) ==> Chronological(w.threads)) &&
      (w.matched ==> |w.threads| == |ts| - 1 && !HasThread(w.threads, id)) &&
      (forall t :: t in ts && t.id != id ==> t in w.threads) &&
      (forall t :: t in w.threads ==> t in ts)
  {
    var w := RemoveThread(ts, id, password);
    if w.matched {
      var i :| 0 <= i < |ts| && ts[i].id == id && ts[i].deletePassword == password &&
        w.threads == ts[..i] + ts[i + 1..];
      var us := w.threads;
      RemoveAtShifts(ts, i);
      forall a, b | 0 <= a < b < |us|
        ensures us[a].id != us[b].id
      {
        var a', b' := if a < i then a else a + 1, if b < i then b else b + 1;
        assert us[a] == ts[a'] && us[b] == ts[b'] && a' < b';
      }
      forall j | 0 <= j < |us|
        ensures UniqueReplyIds(us[j].replies) && us[j].id != id && us[j] in ts
      {
        var src := if j < i then j else j + 1;
        assert us[j] == ts[src] && src != i;
      }
      forall t | t in ts && t.id != id
        ensures t in us
      {
        var j :| 0 <= j < |ts| && ts[j] == t;
        assert j != i;
        var dst := if j < i then j else j - 1;
        assert us[dst] == t;
      }
      assert WellFormed(us);
    }
  }

  /** Reporting a thread twice is reporting it once. */
  lemma FlagThreadIdempotent(ts: seq<Thread>, id: nat)
    ensures var w := FlagThread(ts, id); FlagThread(w.threads, id) == w
  {
    var w := FlagThread(ts, id);
    FirstMatchAgrees(ts, w.threads, ThreadFilter(id));
  }

  /** Boards with the same ids answer a thread-and-reply query alike when the
      reply condition reads only what the two boards share. */
  lemma ThreadWithReplyAgrees(ts: seq<Thread>, us: seq<Thread>, id: nat, q: Reply -> bool)
    requires SameIds(ts, us)
    requires forall i, k :: 0 <= i < |ts| && 0 <= k < |ts[i].replies| ==>
      q(ts[i].replies[k]) == q(us[i].replies[k])
    ensures FirstMatch(ts, ThreadWithReply(id, q)) == FirstMatch(us, ThreadWithReply(id, q))
  {
    forall j | 0 <= j < |ts|
      ensures ThreadWithReply(id, q)(ts[j]) == ThreadWithReply(id, q)(us[j])
    {
      FirstMatchAgrees(ts[j].replies, us[j].replies, q);
    }
    FirstMatchAgrees(ts, us, ThreadWithReply(id, q));
  }

  /** Rewriting a reply with the value it already holds changes nothing. */
  lemma SetReplySame(ts: seq<Thread>, i: nat, k: nat)
    requires i < |ts| && k < |ts[i].replies|
    ensures SetReply(ts, i, k, ts[i].replies[k]) == ts
  {
    assert ts[i].replies[k := ts[i].replies[k]] == ts[i].replies;
    assert ts[i].(replies := ts[i].replies) == ts[i];
  }

  /** Reporting a reply twice is reporting it once. */
  lemma FlagReplyIdempotent(ts: seq<Thread>, id: nat, replyId: nat)
    ensures var w := FlagReply(ts, id, replyId); FlagReply(w.threads, id, replyId) == w
  {
    var w := FlagReply(ts, id, replyId);
    var q := ReplyFilter(replyId);
    match FirstMatch(ts, ThreadWithReply(id, q))
    case None =>
    case Some(i) =>
      var k := FirstMatch(ts[i].replies, q).value;
      var r := ts[i].replies[k].(reported := true);
      var us := SetReply(ts, i, k, r);
      assert w == Write(us, true);
      SetReplyEvolves(ts, i, k, r);
      ThreadWithReplyAgrees(ts, us, id, q);
      FirstMatchAgrees(ts[i].replies, us[i].replies, q);
      assert us[i].replies[k] == r == r.(reported := true);
      SetReplySame(us, i, k);
  }

  /** Deleting a reply again with the right password matches again and
      changes nothing: the tombstone stays. */
  lemma TombstoneReplyIdempotent(ts: seq<Thread>, id: nat, replyId: nat, password: string)
    ensures var w := TombstoneReply(ts, id, replyId, password);
      TombstoneReply(w.threads, id, replyId, password) == w
  {
    var w := TombstoneReply(ts, id, replyId, password);
    var q := ReplyPasswordFilter(replyId, password);
    match FirstMatch(ts, ThreadWithReply(id, q))
    case None =>
    case Some(i) =>
      var k := FirstMatch(ts[i].replies, q).value;
      var r := ts[i].replies[k].(text := Tombstone);
      var us := SetReply(ts, i, k, r);
      assert w == Write(us, true);
      SetReplyEvolves(ts, i, k, r);
      ThreadWithReplyAgrees(ts, us, id, q);
      FirstMatchAgrees(ts[i].replies, us[i].replies, q);
      assert us[i].replies[k] == r == r.(text := Tombstone);
      SetReplySame(us, i, k);
  }

  /** Reporting a thread changes nothing but that thread's flag: every
      thread keeps its bump time and its replies exactly. */
  lemma FlagThreadEvolves(ts: seq<Thread>, id: nat)
    ensures var w := FlagThread(ts, id);
      Evolves(ts, w.threads) && (WellFormed(ts) ==> WellFormed(w.threads)) &&
      (Chronological(ts) ==> Chronological(w.threads)) &&
      forall i :: 0 <= i < |ts| ==>
        w.threads[i].bumpedOn == ts[i].bumpedOn && w.threads[i].replies == ts[i].replies
  {
  }

  /** Appending a reply keeps every earlier reply exactly, adds at most one
      reply to a thread and no report flag changes; with a fresh reply id the
      board stays well formed. */
  lemma PushReplyEvolves(ts: seq<Thread>, id: nat, r: Reply, now: nat)
    ensures var w := PushReply(ts, id, r, now);
      Evolves(ts, w.threads) &&
      (WellFormed(ts) && ReplyIdUnused(ts, r.id) ==> WellFormed(w.threads)) &&
      forall i :: 0 <= i < |ts| ==>
        w.threads[i].reported == ts[i].reported &&
        |w.threads[i].replies| <= |ts[i].replies| + 1 &&
        w.threads[i].replies[..|ts[i].replies|] == ts[i].replies
  {
    var w := PushReply(ts, id, r, now);
    if w.matched {
      var i :| 0 <= i < |ts| && ts[i].id == id &&
        w.threads == ts[i := ts[i].(bumpedOn := now, replies := ts[i].replies + [r])];
      PushAtFrame(ts, i, r, now);
      if WellFormed(ts) && ReplyIdUnused(ts, r.id) {
        PushAtKeepsWellFormed(ts, i, r, now);
      }
    }
  }

  /** Appending `r` to thread `i` (and bumping it) keeps every earlier reply
      of every thread and every report flag. */
  lemma PushAtFrame(ts: seq<Thread>, i: nat, r: Reply, now: nat)
    requires i < |ts|
    ensures var us := ts[i := ts[i].(bumpedOn := now, replies := ts[i].replies + [r])];
      Evolves(ts, us) &&
      forall j :: 0 <= j < |ts| ==>
        us[j].reported == ts[j].reported &&
        |us[j].replies| <= |ts[j].replies| + 1 &&
        us[j].replies[..|ts[j].replies|] == ts[j].replies
  {
    var us := ts[i := ts[i].(bumpedOn := now, replies := ts[i].replies + [r])];
    forall j | 0 <= j < |ts|
      ensures us[j].replies[..|ts[j].replies|] == ts[j].replies
      ensures ThreadEvolves(ts[j], us[j])
    {
      if j == i {
        assert (ts[i].replies + [r])[..|ts[i].replies|] == ts[i].replies;
      }
    }
  }

  /** Appending a reply whose id is new to the board keeps it well formed. */
  lemma PushAtKeepsWellFormed(ts: seq<Thread>, i: nat, r: Reply, now: nat)
    requires i < |ts| && WellFormed(ts) && ReplyIdUnused(ts, r.id)
    ensures WellFormed(ts[i := ts[i].(bumpedOn := now, replies := ts[i].replies + [r])])
  {
    var us := ts[i := ts[i].(bumpedOn := now, replies := ts[i].replies + [r])];
    forall a, b | 0 <= a < b < |us[i].replies|
      ensures us[i].replies[a].id != us[i].replies[b].id
    {
      assert us[i].replies[a] == ts[i].replies[a];
      if b < |ts[i].replies| {
        assert us[i].replies[b] == ts[i].replies[b];
      }
    }
  }

  /** With a clock that does not run backwards, a bump never moves a thread
      back in time and every thread stays bumped no earlier than its replies. */
  lemma PushReplyKeepsChronology(ts: seq<Thread>, id: nat, r: Reply, now: nat)
    requires Chronological(ts) && NotAfter(ts, now) && r.createdOn == now
    ensures var w := PushReply(ts, id, r, now);
      Chronological(w.threads) && NotAfter(w.threads, now) &&
      forall i :: 0 <= i < |ts| ==> ts[i].bumpedOn <= w.threads[i].bumpedOn
  {
  }

  /** A reply delete changes nothing but that reply's text: every thread
      keeps its bump time, its report flag and its number of replies, and
      every reply keeps its report flag. */
  lemma TombstoneReplyEvolves(ts: seq<Thread>, id: nat, replyId: nat, password: string)
    ensures var w := TombstoneReply(ts, id, replyId, password);
      Evolves(ts, w.threads) && (WellFormed(ts) ==> WellFormed(w.threads)) &&
      (Chronological(ts) ==> Chronological(w.threads)) &&
      forall i :: 0 <= i < |ts| ==>
        w.threads[i].bumpedOn == ts[i].bumpedOn && w.threads[i].reported == ts[i].reported &&
        |w.threads[i].replies| == |ts[i].replies| &&
        forall k :: 0 <= k < |ts[i].replies| ==> w.threads[i].replies[k].reported == ts[i].replies[k].reported
  {
    var w := TombstoneReply(ts, id, replyId, password);
    if w.matched {
      var i, k :| 0 <= i < |ts| && 0 <= k < |ts[i].replies| &&
        w.threads == SetReply(ts, i, k, ts[i].replies[k].(text := Tombstone));
      var r := ts[i].replies[k].(text := Tombstone);
      var us := SetReply(ts, i, k, r);
      SetReplyEvolves(ts, i, k, r);
      SetReplyFrame(ts, i, k, r);
      forall j, l | 0 <= j < |ts| && 0 <= l < |ts[j].replies|
        ensures us[j].replies[l].reported == ts[j].replies[l].reported
      {
        if j == i && l == k {
          assert us[j].replies[l] == r;
        } else {
          assert us[j].replies[l] == ts[j].replies[l];
        }
      }
      if WellFormed(ts) {
        SameIdsKeepWellFormed(ts, us);
      }
    }
  }

  /** Reporting a reply changes nothing but that reply's flag: every thread
      keeps its bump time, its report flag and its number of replies, and
      every reply keeps its text. */
  lemma FlagReplyEvolves(ts: seq<Thread>, id: nat, replyId: nat)
    ensures var w := FlagReply(ts, id, replyId);
      Evolves(ts, w.threads) && (WellFormed(ts) ==> WellFormed(w.threads)) &&
      (Chronological(ts) ==> Chronological(w.threads)) &&
      forall i :: 0 <= i < |ts| ==>
        w.threads[i].bumpedOn == ts[i].bumpedOn && w.threads[i].reported == ts[i].reported &&
        |w.threads[i].replies| == |ts[i].replies| &&
        forall k :: 0 <= k < |ts[i].replies| ==> w.threads[i].replies[k].text == ts[i].replies[k].text
  {
    var w := FlagReply(ts, id, replyId);
    if w.matched {
      var i, k :| 0 <= i < |ts| && 0 <= k < |ts[i].replies| &&
        w.threads == SetReply(ts, i, k, ts[i].replies[k].(reported := true));
      var r := ts[i].replies[k].(reported := true);
      var us := SetReply(ts, i, k, r);
      SetReplyEvolves(ts, i, k, r);
      SetReplyFrame(ts, i, k, r);
      forall j, l | 0 <= j < |ts| && 0 <= l < |ts[j].replies|
        ensures us[j].replies[l].text == ts[j].replies[l].text
      {
        if j == i && l == k {
          assert us[j].replies[l] == r;
        } else {
          assert us[j].replies[l] == ts[j].replies[l];
        }
      }
      if WellFormed(ts) {
        SameIdsKeepWellFormed(ts, us);
      }
    }
  }
}
