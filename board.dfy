/** The route handlers of `/api/threads/:board` and `/api/replies/:board` as
 *  the members of one board: each checks its required fields, then makes at
 *  most one store call and answers with a fixed message, a redirect or JSON. */
module MessageBoard {
  import opened Posts
  import opened Store
  import Listing

  /** Every answer a handler sends other than JSON. */
  datatype Outcome =
    | Success
    | RedirectToBoard                  // redirect to `/b/{board}/`
    | RedirectToThread(threadId: nat)  // redirect to `/b/{board}/{thread_id}`
    | IncorrectPassword
    | IncorrectThreadId
    | IncorrectIdProvided
    | MissingBoardInformation
    | MissingThreadInformation
    | MissingDeleteRequestInformation
    | MissingReportRequestInformation
    | MissingThreadId
    | MissingReplyInformation
    | NoSuchThread                     // reading a thread that is not there: no answer is sent

  /** The text of a plain-text answer; redirects and the unanswered read have none. */
  function Message(o: Outcome): Option<string>
  {
    match o
    case Success => Some("success")
    case IncorrectPassword => Some("incorrect password")
    case IncorrectThreadId => Some("incorrect thread id")
    case IncorrectIdProvided => Some("incorrect id provided")
    case MissingBoardInformation => Some("missing board information")
    case MissingThreadInformation => Some("missing thread information")
    case MissingDeleteRequestInformation => Some("missing delete request information")
    case MissingReportRequestInformation => Some("missing report request information")
    case MissingThreadId => Some("missing thread ID")
    case MissingReplyInformation => Some("missing reply information")
    case RedirectToBoard => None
    case RedirectToThread(_) => None
    case NoSuchThread => None
  }

  /** What a read answers: a JSON body, or a refusal. */
  datatype Answer<+T> = Json(body: T) | Refused(outcome: Outcome)

  /** One board: its name and its collection of threads. Request ids are
      `Option`s (`None` for a field the request leaves out); request strings
      are missing when empty. */
  class Board {
    const name: string
    var threads: seq<Thread>

    ghost predicate Valid()
      reads this
    {
      WellFormed(threads)
    }

    constructor (name: string)
      ensures this.name == name && threads == [] && Valid()
    {
      this.name := name;
      threads := [];
    }

    /** GET /api/threads/:board */
    function ListThreads(): (a: Answer<seq<ThreadView>>)
      reads this
      ensures a.Refused? <==> name == ""
      ensures a.Refused? ==> a.outcome == MissingBoardInformation
      ensures a.Json? ==> a.body == Listing.ListThreads(threads)
    {
      if name == "" then Refused(MissingBoardInformation) else Json(Listing.ListThreads(threads))
    }

    /** POST /api/threads/:board */
    method CreateThread(id: nat, text: string, password: string, now: nat) returns (out: Outcome)
      requires Valid() && !HasThread(threads, id)
      modifies this
      ensures Valid()
      ensures out == if name == "" || text == "" || password == "" then MissingThreadInformation else RedirectToBoard
      ensures out == MissingThreadInformation ==> threads == old(threads)
      ensures out == RedirectToBoard ==> threads == old(threads) + [NewThread(id, text, password, now)]
    {
      if name == "" || text == "" || password == "" {
        out := MissingThreadInformation;
      } else {
        threads := threads + [NewThread(id, text, password, now)];
        out := RedirectToBoard;
      }
    }

    /** DELETE /api/threads/:board */
    method DeleteThread(threadId: Option<nat>, password: string) returns (out: Outcome)
      requires Valid()
      modifies this
      ensures Valid()
      ensures name == "" || threadId.None? || password == "" ==>
        out == MissingDeleteRequestInformation && threads == old(threads)
      ensures name != "" && threadId.Some? && password != "" ==>
        var w := RemoveThread(old(threads), threadId.value, password);
        threads == w.threads && out == if w.matched then Success else IncorrectPassword
    {
      if name == "" || threadId.None? || password == "" {
        out := MissingDeleteRequestInformation;
      } else {
        RemoveThreadExact(threads, threadId.value, password);
        var w := RemoveThread(threads, threadId.value, password);
        threads := w.threads;
        out := if w.matched then Success else IncorrectPassword;
      }
    }

    /** PUT /api/threads/:board */
    method ReportThread(threadId: Option<nat>) returns (out: Outcome)
      requires Valid()
      modifies this
      ensures Valid()
      ensures name == "" || threadId.None? ==>
        out == MissingReportRequestInformation && threads == old(threads)
      ensures name != "" && threadId.Some? ==>
        var w := FlagThread(old(threads), threadId.value);
        threads == w.threads && out == if w.matched then Success else IncorrectThreadId
    {
      if name == "" || threadId.None? {
        out := MissingReportRequestInformation;
      } else {
        FlagThreadEvolves(threads, threadId.value);
        var w := FlagThread(threads, threadId.value);
        threads := w.threads;
        out := if w.matched then Success else IncorrectThreadId;
      }
    }

    /** GET /api/replies/:board?thread_id=… (the board name is not checked). */
    function GetThread(threadId: Option<nat>): (a: Answer<ThreadView>)
      reads this
      ensures threadId.None? ==> a == Refused(MissingThreadId)
      ensures threadId.Some? && !HasThread(threads, threadId.value) ==> a == Refused(NoSuchThread)
      ensures threadId.Some? && HasThread(threads, threadId.value) ==>
        a.Json? && exists i :: 0 <= i < |threads| && threads[i].id == threadId.value && a.body == Redact(threads[i])
      ensures a.Json? ==> a.body.replyCount == |a.body.replies|
    {
      if threadId.None? then Refused(MissingThreadId)
      else match FirstMatch(threads, ThreadFilter(threadId.value))
        case None => Refused(NoSuchThread)
        case Some(i) => Json(Redact(threads[i]))
    }

    /** POST /api/replies/:board (the board name is not checked). The new
        reply's id is fresh on the board. */
    method AddReply(threadId: Option<nat>, replyId: nat, text: string, password: string, now: nat)
      returns (out: Outcome)
      requires Valid() && ReplyIdUnused(threads, replyId)
      modifies this
      ensures Valid()
      ensures threadId.None? || text == "" || password == "" ==>
        out == MissingReplyInformation && threads == old(threads)
      ensures threadId.Some? && text != "" && password != "" ==>
        var w := PushReply(old(threads), threadId.value, NewReply(replyId, text, password, now), now);
        threads == w.threads && out == if w.matched then RedirectToThread(threadId.value) else IncorrectThreadId
    {
      if threadId.None? || text == "" || password == "" {
        out := MissingReplyInformation;
      } else {
        var r := NewReply(replyId, text, password, now);
        PushReplyEvolves(threads, threadId.value, r, now);
        var w := PushReply(threads, threadId.value, r, now);
        threads := w.threads;
        out := if w.matched then RedirectToThread(threadId.value) else IncorrectThreadId;
      }
    }

    /** DELETE /api/replies/:board */
    method DeleteReply(threadId: Option<nat>, replyId: Option<nat>, password: string) returns (out: Outcome)
      requires Valid()
      modifies this
      ensures Valid()
      ensures name == "" || threadId.None? || replyId.None? || password == "" ==>
        out == MissingReportRequestInformation && threads == old(threads)
      ensures name != "" && threadId.Some? && replyId.Some? && password != "" ==>
        var w := TombstoneReply(old(threads), threadId.value, replyId.value, password);
        threads == w.threads && out == if w.matched then Success else IncorrectPassword
    {
      if name == "" || threadId.None? || replyId.None? || password == "" {
        out := MissingReportRequestInformation;
      } else {
        TombstoneReplyEvolves(threads, threadId.value, replyId.value, password);
        var w := TombstoneReply(threads, threadId.value, replyId.value, password);
        threads := w.threads;
        out := if w.matched then Success else IncorrectPassword;
      }
    }

    /** PUT /api/replies/:board */
    method ReportReply(threadId: Option<nat>, replyId: Option<nat>) returns (out: Outcome)
      requires Valid()
      modifies this
      ensures Valid()
      ensures name == "" || threadId.None? || replyId.None? ==>
        out == MissingReportRequestInformation && threads == old(threads)
      ensures name != "" && threadId.Some? && replyId.Some? ==>
        var w := FlagReply(old(threads), threadId.value, replyId.value);
        threads == w.threads && out == if w.matched then Success else IncorrectIdProvided
    {
      if name == "" || threadId.None? || replyId.None? {
        out := MissingReportRequestInformation;
      } else {
        FlagReplyEvolves(threads, threadId.value, replyId.value);
        var w := FlagReply(threads, threadId.value, replyId.value);
        threads := w.threads;
        out := if w.matched then Success else IncorrectIdProvided;
      }
    }
  }

  // ------------------------------------------------ the functional tests

  /** The thread the test suite's `beforeEach` hook inserts, with the one
      reply it carries; ids 1 and 2 and time 100 stand for the generated
      object ids and the insertion time. */
  const Fixture: Thread :=
    Thread(1, "beforeEach insert", 100, 100, false, "password",
           [Reply(2, "test reply text", 100, "replypassword", false)])

  /** `beforeEach`: a fresh `mocha_test` board holding only the fixture (the
      `afterEach` hook drops the collection, so no test sees another's
      writes). */
  method BeforeEach() returns (b: Board)
    ensures fresh(b) && b.name == "mocha_test" && b.threads == [Fixture] && b.Valid()
  {
    b := new Board("mocha_test");
    b.threads := [Fixture];
  }

  /** "post a new thread to test message board" */
  method PostThreadTest()
  {
    var b := BeforeEach();
    var out := b.CreateThread(3, "test text", "testpass", 200);
    assert out == RedirectToBoard && Message(out) == None;
    assert b.threads == [Fixture, NewThread(3, "test text", "testpass", 200)];
  }

  /** "get an array of threads from message board": one thread, the fixture,
      with fewer than four replies; the view type has no `reported` and no
      `delete_password`. */
  method ListThreadsTest()
  {
    var b := BeforeEach();
    var listing := b.ListThreads();
    assert listing.Json? && |listing.body| == 1;
    assert listing.body[0] == Redact(Fixture);
    assert listing.body[0].text == "beforeEach insert" && |listing.body[0].replies| < 4;
  }

  /** "delete test thread - incorrect password" */
  method DeleteThreadIncorrectPasswordTest()
  {
    var b := BeforeEach();
    var out := b.DeleteThread(Some(1), "badpassword");
    assert Message(out) == Some("incorrect password") && b.threads == [Fixture];
  }

  /** "delete test thread - correct password" */
  method DeleteThreadCorrectPasswordTest()
  {
    var b := BeforeEach();
    var out := b.DeleteThread(Some(1), "password");
    assert Message(out) == Some("success") && b.threads == [];
  }

  /** "report a thread" */
  method ReportThreadTest()
  {
    var b := BeforeEach();
    var out := b.ReportThread(Some(1));
    assert Message(out) == Some("success") && b.threads == [Fixture.(reported := true)];
  }

  /** "post a new reply to existing thread": the thread gets a second reply
      and is bumped. */
  method PostReplyTest()
  {
    var b := BeforeEach();
    var out := b.AddReply(Some(1), 3, "test text", "testpass", 200);
    var r := Reply(3, "test text", 200, "testpass", false);
    assert out == RedirectToThread(1) && Message(out) == None;
    assert b.threads == [Fixture.(bumpedOn := 200, replies := Fixture.replies + [r])];
  }

  /** "get replies from a thread" */
  method GetRepliesTest()
  {
    var b := BeforeEach();
    var read := b.GetThread(Some(1));
    assert read == Json(Redact(Fixture));
    assert |read.body.replies| == 1 && read.body.replies[0].text == "test reply text";
  }

  /** "report a reply" */
  method ReportReplyTest()
  {
    var b := BeforeEach();
    var out := b.ReportReply(Some(1), Some(2));
    var r := Fixture.replies[0].(reported := true);
    assert Fixture.replies[0 := r] == [r];
    assert [Fixture][0 := Fixture.(replies := [r])] == [Fixture.(replies := [r])];
    assert Message(out) == Some("success") && b.threads == [Fixture.(replies := [r])];
  }

  /** "delete test reply - incorrect password" */
  method DeleteReplyIncorrectPasswordTest()
  {
    var b := BeforeEach();
    var out := b.DeleteReply(Some(1), Some(2), "badpassword");
    assert Message(out) == Some("incorrect password") && b.threads == [Fixture];
  }

  /** "delete test reply - correct password": the reply stays, its text
      becomes the tombstone. */
  method DeleteReplyCorrectPasswordTest()
  {
    var b := BeforeEach();
    var out := b.DeleteReply(Some(1), Some(2), "replypassword");
    var r := Fixture.replies[0].(text := Tombstone);
    assert Fixture.replies[0 := r] == [r];
    assert [Fixture][0 := Fixture.(replies := [r])] == [Fixture.(replies := [r])];
    assert Message(out) == Some("success") && b.threads == [Fixture.(replies := [r])];
  }
}
