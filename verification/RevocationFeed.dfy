/** The paged revocation feed of the Trust Root. */
module RevocationFeed {
  import opened GoStrings
  import opened TrustRoot

  datatype Page = Page(items: seq<Revocation>, cursor: string)

  type Log = seq<Revocation>

  /** The place after the first item with the cursor's ID; the beginning when there is none. */
  function Start(log: Log, cursor: string): (start: nat)
    ensures start <= |log|
  {
    if cursor != "" && exists i | 0 <= i < |log| :: log[i].id == cursor then First(log, cursor, 0) + 1 else 0
  }

  function First(log: Log, id: string, from: nat): (i: nat)
    requires from <= |log| && exists k | from <= k < |log| :: log[k].id == id
    ensures from <= i < |log| && log[i].id == id && forall k | from <= k < i :: log[k].id != id
    decreases |log| - from
  {
    if log[from].id == id then from else First(log, id, from + 1)
  }

  function PageOf(log: Log, cursor: string, limit: nat): Page {
    var start := Start(log, cursor);
    var end := if start + limit < |log| then start + limit else |log|;
    Page(log[start..end], if limit > 0 && start + limit < |log| then log[end - 1].id else "")
  }

  method FindStart(log: Log, cursor: string) returns (start: nat)
    ensures start == Start(log, cursor)
  {
    start := 0;
    if cursor != "" {
      for i := 0 to |log|
        invariant forall k | 0 <= k < i :: log[k].id != cursor
      {
        if log[i].id == cursor {
          start := i + 1;
          break;
        }
      }
    }
  }

  /** The in-memory branch of `revocations`. */
  method ListPage(log: Log, cursor: string, limit: nat) returns (page: Page)
    requires 0 < limit
    ensures page == PageOf(log, cursor, limit)
  {
    var start := FindStart(log, cursor);
    var items := [];
    for i := start to |log|
      invariant items == log[start..i] && |items| <= limit
    {
      if |items| == limit { break; }
      items := items + [log[i]];
    }
    var next := "";
    if |items| == limit && start + |items| < |log| {
      next := items[|items| - 1].id;
    }
    page := Page(items, next);
  }

  /** The `limit` parameter of the query. */
  datatype LimitParameter = Absent | NotANumber | Number(n: int)

  function Limit(l: LimitParameter): Option<nat> {
    match l
    case Absent => Some(100)
    case NotANumber => None
    case Number(n) => if n <= 0 || n > 200 then None else Some(n)
  }

  // ----- following the feed -----

  ghost predicate DistinctIDs(log: Log) {
    && (forall i | 0 <= i < |log| :: log[i].id != "")
    && (forall i, j | 0 <= i < j < |log| :: log[i].id != log[j].id)
  }

  ghost function LastID(received: Log): string {
    if received == [] then "" else received[|received| - 1].id
  }

  /** Asking from the last item received continues exactly where the reader is. */
  lemma StartAfterReceived(log: Log, n: nat)
    requires DistinctIDs(log) && n <= |log|
    ensures Start(log, LastID(log[..n])) == n
  {
    if n > 0 {
      assert log[n - 1].id == LastID(log[..n]);
    }
  }

  ghost function Received(pages: seq<Page>): Log {
    if pages == [] then [] else Received(pages[..|pages| - 1]) + pages[|pages| - 1].items
  }

  ghost function CursorAfter(pages: seq<Page>): string {
    if pages == [] then "" else pages[|pages| - 1].cursor
  }

  /** A reader that starts without a cursor and passes on each page's cursor until a page has none; the log may have grown
      each time it asks. */
  ghost predicate Follows(logs: seq<Log>, limits: seq<nat>, pages: seq<Page>) {
    && |logs| == |limits| == |pages|
    && forall k | 0 <= k < |pages| :: Answers(logs, limits, pages, k)
  }

  /** The k-th page answers the cursor of the page before it. */
  ghost predicate Answers(logs: seq<Log>, limits: seq<nat>, pages: seq<Page>, k: nat)
    requires k < |logs| == |limits| == |pages|
  {
    && 0 < limits[k]
    && pages[k] == PageOf(logs[k], CursorAfter(pages[..k]), limits[k])
    && (k > 0 ==> pages[k - 1].cursor != "")
  }

  ghost predicate Growing(logs: seq<Log>) {
    && (forall k | 0 <= k < |logs| :: DistinctIDs(logs[k]))
    && (forall j, k | 0 <= j < k < |logs| :: logs[j] <= logs[k])
  }

  /** A page from place n of the log. */
  lemma PageAt(log: Log, n: nat, limit: nat, cursor: string)
    requires DistinctIDs(log) && n <= |log| && 0 < limit && Start(log, cursor) == n
    ensures var page := PageOf(log, cursor, limit);
            && n + |page.items| <= |log|
            && page.items == log[n..n + |page.items|]
            && (page.cursor == "" <==> n + |page.items| == |log|)
            && (page.cursor != "" ==> |page.items| == limit && page.cursor == log[n + limit - 1].id)
  {
  }

  /** A cursor that is not in the log starts again from the beginning; one that is continues behind its entry, with as many
      entries as the limit allows and the log has. */
  lemma PageStarts(log: Log, cursor: string, limit: nat, n: nat)
    requires DistinctIDs(log) && 0 < limit
    requires if n == 0 then forall i | 0 <= i < |log| :: log[i].id != cursor else n <= |log| && log[n - 1].id == cursor
    ensures PageOf(log, cursor, limit).items == if n + limit <= |log| then log[n..n + limit] else log[n..]
  {
    if n > 0 { assert Start(log, cursor) == n; }
  }

  lemma PageContinues(log: Log, n: nat, limit: nat)
    requires DistinctIDs(log) && n <= |log| && 0 < limit
    ensures var page := PageOf(log, LastID(log[..n]), limit);
            && n + |page.items| <= |log|
            && log[..n] + page.items == log[..n + |page.items|]
            && (page.cursor == "" <==> log[..n] + page.items == log)
            && (page.cursor != "" ==> page.cursor == LastID(log[..n] + page.items) && |page.items| == limit)
  {
    StartAfterReceived(log, n);
    PageAt(log, n, limit, LastID(log[..n]));
    PrefixGrows(log, n, |PageOf(log, LastID(log[..n]), limit).items|);
  }

  lemma PrefixGrows(log: Log, n: nat, more: nat)
    requires n + more <= |log|
    ensures log[..n] + log[n..n + more] == log[..n + more]
    ensures log[..n + more] == log <==> n + more == |log|
    ensures more > 0 ==> LastID(log[..n + more]) == log[n + more - 1].id
  {
  }

  lemma PrefixTransitive(a: Log, b: Log, c: Log)
    requires a <= b && b <= c
    ensures a <= c
  {
  }

  /** One more page after a prefix of the log. */
  lemma NextPage(logs: seq<Log>, limits: seq<nat>, pages: seq<Page>, k: nat)
    requires Follows(logs, limits, pages) && k < |pages| && DistinctIDs(logs[k])
    requires Received(pages[..k]) <= logs[k] && CursorAfter(pages[..k]) == LastID(Received(pages[..k]))
    ensures Received(pages[..k + 1]) <= logs[k]
    ensures pages[k].cursor == "" <==> Received(pages[..k + 1]) == logs[k]
    ensures pages[k].cursor != "" ==> pages[k].cursor == LastID(Received(pages[..k + 1])) && |pages[k].items| == limits[k]
  {
    var log, before := logs[k], Received(pages[..k]);
    assert before == log[..|before|];
    assert Answers(logs, limits, pages, k);
    PageContinues(log, |before|, limits[k]);
    assert pages[..k + 1][..k] == pages[..k];
  }

  /** What has been read after any page is a prefix of the log as it was when last asked, without gap or repeat; a page has no
      cursor exactly when it completes the log, and one with a cursor is full. */
  lemma {:induction false} FollowedPagesArePrefix(logs: seq<Log>, limits: seq<nat>, pages: seq<Page>, k: nat)
    requires Follows(logs, limits, pages) && Growing(logs) && k < |pages|
    ensures Received(pages[..k + 1]) <= logs[k]
    ensures pages[k].cursor == "" <==> Received(pages[..k + 1]) == logs[k]
    ensures pages[k].cursor != "" ==> pages[k].cursor == LastID(Received(pages[..k + 1])) && |pages[k].items| == limits[k]
  {
    assert Answers(logs, limits, pages, k);
    if k > 0 {
      FollowedPagesArePrefix(logs, limits, pages, k - 1);
      PrefixTransitive(Received(pages[..k]), logs[k - 1], logs[k]);
      assert CursorAfter(pages[..k]) == pages[k - 1].cursor;
    }
    NextPage(logs, limits, pages, k);
  }

  // ----- the log of a run -----

  lemma LogStep(cfg: Config, w: World, e: Event, after: World)
    requires Step(cfg, w, e, after) && DistinctIDs(w.log)
    ensures w.log <= after.log && DistinctIDs(after.log)
  {
  }

  lemma {:induction false} LogDistinct(cfg: Config, states: seq<World>, events: seq<Event>, i: nat)
    requires Run(cfg, states, events) && i <= |events|
    ensures DistinctIDs(states[i].log)
  {
    if i > 0 {
      LogDistinct(cfg, states, events, i - 1);
      assert StepAt(cfg, states, events, i - 1);
      LogStep(cfg, states[i - 1], events[i - 1], states[i]);
    }
  }

  lemma {:induction false} LogGrows(cfg: Config, states: seq<World>, events: seq<Event>, i: nat, j: nat)
    requires Run(cfg, states, events) && i <= j <= |events|
    ensures states[i].log <= states[j].log
    decreases j
  {
    if i < j {
      LogGrows(cfg, states, events, i, j - 1);
      LogDistinct(cfg, states, events, j - 1);
      assert StepAt(cfg, states, events, j - 1);
      LogStep(cfg, states[j - 1], events[j - 1], states[j]);
      PrefixTransitive(states[i].log, states[j - 1].log, states[j].log);
    }
  }

  /** Read from the empty cursor in any run of the Trust Root, with any limits and any revocations between the pages, the
      feed delivers a prefix of the revocation log, and all of it exactly when a page comes back without a cursor. */
  lemma FeedIsComplete(
    cfg: Config, states: seq<World>, events: seq<Event>, times: seq<nat>, limits: seq<nat>, pages: seq<Page>)
    requires Run(cfg, states, events) && times != []
    requires forall k | 0 <= k < |times| :: times[k] <= |events|
    requires forall j, k | 0 <= j < k < |times| :: times[j] <= times[k]
    requires Follows(seq(|times|, k requires 0 <= k < |times| => states[times[k]].log), limits, pages)
    ensures Received(pages) <= states[times[|times| - 1]].log
    ensures CursorAfter(pages) == "" <==> Received(pages) == states[times[|times| - 1]].log
  {
    var logs := seq(|times|, k requires 0 <= k < |times| => states[times[k]].log);
    forall k | 0 <= k < |logs| ensures DistinctIDs(logs[k]) { LogDistinct(cfg, states, events, times[k]); }
    forall j, k | 0 <= j < k < |logs| ensures logs[j] <= logs[k] {
      LogGrows(cfg, states, events, times[j], times[k]);
    }
    var k := |times| - 1;
    assert pages[..k + 1] == pages;
    FollowedPagesArePrefix(logs, limits, pages, k);
  }
}
