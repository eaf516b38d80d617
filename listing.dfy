/** The read behind `GET /api/threads/:board`: the board's threads ordered by
 *  `bumped_on`, newest bump first, at most ten of them, each redacted and
 *  given its reply count. */
module Listing {
  import opened Posts

  /** The `.limit(10)` of the query. */
  const PageSize: nat := 10

  function Min(a: nat, b: nat): nat
  {
    if a <= b then a else b
  }

  /** Newest bump first: `.sort({ bumped_on: -1 })`. */
  predicate NewestFirst(s: seq<Thread>)
  {
    forall i, j :: 0 <= i < j < |s| ==> s[i].bumpedOn >= s[j].bumpedOn
  }

  /** `t` placed into an ordered sequence ahead of every thread bumped no
      later than it. */
  function Insert(t: Thread, s: seq<Thread>): (r: seq<Thread>)
    requires NewestFirst(s)
    ensures NewestFirst(r)
    ensures |r| == |s| + 1
    ensures multiset(r) == multiset(s) + multiset{t}
    ensures r[0] == t || (s != [] && r[0] == s[0])
  {
    if s == [] || s[0].bumpedOn <= t.bumpedOn then
      [t] + s
    else
      assert s == [s[0]] + s[1..];
      [s[0]] + Insert(t, s[1..])
  }

  /** The whole collection in listing order. */
  function SortByBump(ts: seq<Thread>): (r: seq<Thread>)
    ensures |r| == |ts|
    ensures NewestFirst(r)
    ensures multiset(r) == multiset(ts)
  {
    if ts == [] then []
    else
      assert ts == [ts[0]] + ts[1..];
      Insert(ts[0], SortByBump(ts[1..]))
  }

  /** Cutting an ordered sequence at `n` leaves behind only threads bumped no
      later than any thread kept. */
  lemma {:induction false} CutKeepsNewest(s: seq<Thread>, n: nat)
    requires NewestFirst(s) && n <= |s|
    ensures NewestFirst(s[..n])
    ensures multiset(s[..n]) <= multiset(s)
    ensures multiset(s) - multiset(s[..n]) == multiset(s[n..])
    ensures forall t :: t in multiset(s[n..]) ==> forall i :: 0 <= i < n ==> t.bumpedOn <= s[i].bumpedOn
  {
    assert s == s[..n] + s[n..];
    forall t | t in multiset(s[n..])
      ensures forall i :: 0 <= i < n ==> t.bumpedOn <= s[i].bumpedOn
    {
      assert t in s[n..];
      var j :| n <= j < |s| && s[j] == t;
    }
  }

  /** `top` is drawn from the board, no thread more often than stored, and
      every thread left out was bumped no later than every thread in `top`. */
  predicate NewestOf(ts: seq<Thread>, top: seq<Thread>)
  {
    multiset(top) <= multiset(ts) &&
    forall t :: t in multiset(ts) - multiset(top) ==>
      forall i :: 0 <= i < |top| ==> t.bumpedOn <= top[i].bumpedOn
  }

  /** The documents the listing query returns, before projection: the
      `PageSize` most recently bumped threads, newest first. Every thread left
      out was bumped no later than every thread kept. */
  function Page(ts: seq<Thread>): (top: seq<Thread>)
    ensures |top| == Min(PageSize, |ts|)
    ensures NewestFirst(top)
    ensures NewestOf(ts, top)
  {
    var s := SortByBump(ts);
    var n := Min(PageSize, |ts|);
    CutKeepsNewest(s, n);
    s[..n]
  }

  function RedactAll(ts: seq<Thread>): (vs: seq<ThreadView>)
    ensures |vs| == |ts|
    ensures forall i :: 0 <= i < |ts| ==> vs[i] == Redact(ts[i])
  {
    if ts == [] then [] else [Redact(ts[0])] + RedactAll(ts[1..])
  }

  /** The listing a reader receives: at most ten redacted threads, every one
      of them a stored thread, newest bump first, each with `replyCount` equal
      to the number of replies it shows. It shows, in order, the redactions of
      threads taken from the board (no thread more often than stored) such
      that every thread left out was bumped no later than every thread shown. */
  function ListThreads(ts: seq<Thread>): (vs: seq<ThreadView>)
    ensures |vs| == Min(PageSize, |ts|)
    ensures forall i, j :: 0 <= i < j < |vs| ==> vs[i].bumpedOn >= vs[j].bumpedOn
    ensures forall i :: 0 <= i < |vs| ==> exists t :: t in ts && vs[i] == Redact(t)
    ensures forall i :: 0 <= i < |vs| ==> vs[i].replyCount == |vs[i].replies|
    ensures exists top ::
      NewestOf(ts, top) && |top| == |vs| &&
      forall i :: 0 <= i < |vs| ==> vs[i] == Redact(top[i])
  {
    var top := Page(ts);
    var vs := RedactAll(top);
    forall i | 0 <= i < |vs|
      ensures exists t :: t in ts && vs[i] == Redact(t)
    {
      assert top[i] in multiset(top);
      assert top[i] in ts;
    }
    assert NewestOf(ts, top);
    vs
  }
}
