/**
 * The Gmail helpers of GmailExtensions.cs, with the Gmail service replaced by
 * the answers its calls give: deleting ids in batches of at most 1000, finding
 * a label's id by name, collecting every message of a folder page by page
 * into a result list and an append-only journal, and the text of an
 * unsubscribe e-mail built from a "mailto:" link.
 */
module GmailExtensions {
  import opened Wrappers
  import Seqs
  import Text
  import opened Helpers

  /** One message header: its name and its value. */
  datatype Header = Header(name: string, value: string)

  /** A message as fetched with its metadata: its id and its headers, in order. */
  datatype Message = Message(id: string, headers: seq<Header>)

  /** A mailbox label (a folder): its display name and its id. */
  datatype Label = Label(name: string, id: string)

  /** The Gmail API deletes at most this many ids in one BatchDelete call. */
  const BatchLimit := 1000

  /** The MaxResults of every listing request. */
  const PageSize := 1000

  // ---------------------------------------------------------------------------
  // BatchDelete
  // ---------------------------------------------------------------------------

  /** `ids.Chunk(1000)`: consecutive runs of at most 1000 ids, in order. */
  function Chunks(ids: seq<string>): (r: seq<seq<string>>)
    ensures forall i :: 0 <= i < |r| ==> 0 < |r[i]| <= BatchLimit
    ensures forall i :: 0 <= i < |r| - 1 ==> |r[i]| == BatchLimit
    decreases |ids|
  {
    if ids == [] then []
    else if |ids| <= BatchLimit then [ids]
    else [ids[..BatchLimit]] + Chunks(ids[BatchLimit..])
  }

  /** There are ceil(N / 1000) chunks: none for no ids. */
  lemma {:induction false} ChunksCount(ids: seq<string>)
    ensures |Chunks(ids)| == (|ids| + BatchLimit - 1) / BatchLimit
    decreases |ids|
  {
    if |ids| > BatchLimit {
      ChunksCount(ids[BatchLimit..]);
    }
  }

  /** The chunks, concatenated in call order, are the ids: no gap, overlap or reordering. */
  lemma {:induction false} ChunksFlatten(ids: seq<string>)
    ensures Seqs.Flatten(Chunks(ids)) == ids
    decreases |ids|
  {
    if |ids| > BatchLimit {
      var r := Chunks(ids);
      ChunksFlatten(ids[BatchLimit..]);
      assert r[1..] == Chunks(ids[BatchLimit..]);
      assert ids == ids[..BatchLimit] + ids[BatchLimit..];
    } else if ids != [] {
      assert Chunks(ids)[1..] == [];
    }
  }

  /**
   * BatchDelete(ids): one BatchDelete call per chunk, in order; the first call
   * the service rejects throws out of the loop, so no later chunk is sent.
   * `rejects` is the service's answer to a call with a given chunk.
   */
  method BatchDelete(ids: seq<string>, rejects: seq<string> -> bool) returns (calls: seq<seq<string>>, rejected: bool)
    ensures |calls| <= |Chunks(ids)| && calls == Chunks(ids)[..|calls|]
    ensures forall i :: 0 <= i < |calls| - 1 ==> !rejects(calls[i])
    ensures rejected <==> calls != [] && rejects(calls[|calls| - 1])
    ensures !rejected ==> calls == Chunks(ids)
  {
    var batches := Chunks(ids);
    calls := [];
    var i := 0;
    while i < |batches|
      invariant 0 <= i <= |batches|
      invariant calls == batches[..i]
      invariant forall j :: 0 <= j < i ==> !rejects(batches[j])
    {
      calls := calls + [batches[i]];
      if rejects(batches[i]) {
        assert calls == batches[..i + 1];
        return calls, true;
      }
      i := i + 1;
    }
    assert batches[..i] == batches;
    rejected := false;
  }

  // ---------------------------------------------------------------------------
  // GetFolderId
  // ---------------------------------------------------------------------------

  /** The label is named `name`, ignoring case. */
  predicate Named(folder: Label, name: string)
  {
    Text.EqualsIgnoreCase(folder.name, name)
  }

  /**
   * GetFolderId(folderName): the id of the first label named `folderName`
   * (ignoring case) in the label listing, or null when none is, when the
   * listing has no labels, or when listing them threw (Safe turns that into null).
   */
  function GetFolderId(listing: Outcome<Option<seq<Label>>>, folderName: string): (r: Option<string>)
    ensures r.None? <==> || listing.Raised? || listing.value.None?
                         || forall i :: 0 <= i < |listing.value.value| ==> !Named(listing.value.value[i], folderName)
  {
    match Safe(listing)
    case None => None
    case Some(labels) =>
      if labels.None? then None
      else
        var i := Seqs.FirstWhere(labels.value, l => Named(l, folderName));
        if i == -1 then None else Some(labels.value[i].id)
  }

  /** The id found is the one of the first label with that name. */
  lemma GetFolderIdFirst(labels: seq<Label>, folderName: string, i: int)
    requires 0 <= i < |labels| && Named(labels[i], folderName)
    requires forall j :: 0 <= j < i ==> !Named(labels[j], folderName)
    ensures GetFolderId(Returned(Some(labels)), folderName) == Some(labels[i].id)
  {
    var k := Seqs.FirstWhere(labels, l => Named(l, folderName));
    assert k == i;
  }

  // ---------------------------------------------------------------------------
  // FetchAllMessagesInFolder
  // ---------------------------------------------------------------------------

  /** One answer of Messages.List: the ids it lists (null when none) and the next page token. */
  datatype Page = Page(messages: Option<seq<string>>, nextPageToken: Option<string>)

  /** A Messages.List request: the label filter, the page token and the page size. */
  datatype ListRequest = ListRequest(labelIds: Option<seq<string>>, pageToken: string, maxResults: int)

  /** The request the loop builds for page token `token`. */
  function RequestFor(folderId: Option<string>, token: string): (r: ListRequest)
    ensures r.pageToken == token && r.maxResults == PageSize
    ensures r.labelIds.Some? <==> folderId.Some?
    ensures folderId.Some? ==> r.labelIds.value == [folderId.value]
  {
    ListRequest(if folderId.Some? then Some([folderId.value]) else None, token, PageSize)
  }

  /** The ids of a listing answer, passed through Safe: none when it threw or listed nothing. */
  function PageIds(answer: Outcome<Page>): seq<string>
  {
    match Safe(answer)
    case Some(page) => if page.messages.Some? then page.messages.value else []
    case None => []
  }

  /** `response?.NextPageToken`: null when the listing threw. */
  function NextToken(answer: Outcome<Page>): Option<string>
  {
    match Safe(answer)
    case Some(page) => page.nextPageToken
    case None => None
  }

  /** The do-while test fails: the next token is null or empty. */
  predicate EndsPaging(answer: Outcome<Page>)
  {
    NextToken(answer).None? || NextToken(answer).value == ""
  }

  /** A listing that threw ends the paging. */
  lemma FailedListingEndsPaging(failure: Failure)
    ensures EndsPaging(Raised(failure)) && PageIds(Raised(failure)) == []
  {
  }

  /** How collecting ended. */
  datatype FetchEnd =
    | Complete               // the last listing had no next page
    | Aborted(failure: Failure) // Retry around a Messages.Get threw, and so did the collector
    | Unfinished             // the scripted answers ran out while the loop was still going

  /** Messages collected so far and whether collecting can go on (Complete) or stopped. */
  datatype Fetched = Fetched(messages: seq<Message>, end: FetchEnd)

  /** The attempts of the Messages.Get call for each id, as Retry sees them. */
  type Gets = string -> seq<Attempt<Option<Message>>>

  /** The catch clauses of the Retry around each Messages.Get. */
  type Catch = Attempt<Option<Message>> -> Step<Option<Message>>

  /** How the Retry around the Messages.Get of each id ends. */
  type Outcomes = string -> RetryEnd<Option<Message>>

  /** The ends of Retry loops with catch clauses `h` over the attempts `gets` scripts. */
  function RetryOutcomes(h: Catch, gets: Gets): Outcomes
  {
    id => RetryResult(h, gets(id))
  }

  /**
   * The inner foreach over one page's ids: each id is fetched through
   * Helpers.Retry; a null message is skipped; an exception leaving Retry ends
   * collecting.
   */
  function FetchIds(ids: seq<string>, outcome: Outcomes): (r: Fetched)
    ensures r.end.Complete? || r.end.Aborted? || r.end.Unfinished?
    ensures |r.messages| <= |ids|
  {
    if ids == [] then Fetched([], Complete)
    else
      var prev := FetchIds(ids[..|ids| - 1], outcome);
      if !prev.end.Complete? then prev
      else
        var end := outcome(ids[|ids| - 1]);
        match end
        case Done(Some(m)) => Fetched(prev.messages + [m], Complete)
        case Done(None) => prev
        case Failed(f) => Fetched(prev.messages, Aborted(f))
        case StillRetrying => Fetched(prev.messages, Unfinished)
  }

  /** Fetching a run of ids then another is fetching their concatenation: results stay in id order. */
  lemma {:induction false} FetchIdsAppend(xs: seq<string>, ys: seq<string>, outcome: Outcomes)
    ensures var a, b := FetchIds(xs, outcome), FetchIds(ys, outcome);
            FetchIds(xs + ys, outcome) == if a.end.Complete? then Fetched(a.messages + b.messages, b.end) else a
    decreases |ys|
  {
    if ys == [] {
      assert xs + ys == xs;
    } else {
      var init := ys[..|ys| - 1];
      FetchIdsAppend(xs, init, outcome);
      assert (xs + ys)[..|xs + ys| - 1] == xs + init;
      assert (xs + ys)[|xs + ys| - 1] == ys[|ys| - 1];
    }
  }

  /** What a run of the loop did: the listing requests it made, the messages it collected, how it ended. */
  datatype Run = Run(requests: seq<ListRequest>, messages: seq<Message>, end: FetchEnd)

  /** A run followed by another. */
  function Then(a: Run, b: Run): Run
  {
    Run(a.requests + b.requests, a.messages + b.messages, b.end)
  }

  /**
   * The do-while loop from page token `token` over the scripted listing
   * answers: list a page, fetch its ids, and go on while the next token is
   * neither null nor empty.
   */
  function Paging(folderId: Option<string>, token: string, answers: seq<Outcome<Page>>, outcome: Outcomes): (r: Run)
    ensures |r.requests| <= |answers|
    decreases |answers|
  {
    if answers == [] then Run([], [], Unfinished)
    else
      var got := FetchIds(PageIds(answers[0]), outcome);
      var first := Run([RequestFor(folderId, token)], got.messages, got.end);
      if !got.end.Complete? || EndsPaging(answers[0]) then first
      else Then(first, Paging(folderId, NextToken(answers[0]).value, answers[1..], outcome))
  }

  /**
   * Every listing request asks for 1000 results and filters on the folder
   * exactly when a folder id is given; the first carries the starting token,
   * each later one the non-empty token of the answer before it.
   */
  lemma {:induction false} PagingRequests(folderId: Option<string>, token: string, answers: seq<Outcome<Page>>, outcome: Outcomes)
    ensures var r := Paging(folderId, token, answers, outcome);
            && (forall k :: 0 <= k < |r.requests| ==>
                  r.requests[k].maxResults == PageSize
                  && r.requests[k].labelIds == (if folderId.Some? then Some([folderId.value]) else None))
            && (|r.requests| > 0 ==> r.requests[0].pageToken == token)
            && (forall k :: 1 <= k < |r.requests| ==>
                  r.requests[k].pageToken != "" && NextToken(answers[k - 1]) == Some(r.requests[k].pageToken))
    decreases |answers|
  {
    if answers != [] {
      var r := Paging(folderId, token, answers, outcome);
      var got := FetchIds(PageIds(answers[0]), outcome);
      if got.end.Complete? && !EndsPaging(answers[0]) {
        var next := NextToken(answers[0]).value;
        var rest := Paging(folderId, next, answers[1..], outcome);
        PagingRequests(folderId, next, answers[1..], outcome);
        assert r.requests == [RequestFor(folderId, token)] + rest.requests;
        forall k | 1 <= k < |r.requests|
          ensures r.requests[k].pageToken != "" && NextToken(answers[k - 1]) == Some(r.requests[k].pageToken)
        {
          assert r.requests[k] == rest.requests[k - 1];
          if k >= 2 {
            assert answers[k - 1] == answers[1..][k - 2];
          }
        }
      }
    }
  }

  /**
   * The loop goes on exactly while the next token is non-empty: every answer
   * but the last one used had a next page and was fetched in full (so none of
   * them was a failed listing); a run that ended Complete stopped at an answer
   * without one; and a run that stopped early did so for one of those reasons.
   */
  lemma {:induction false} PagingStops(folderId: Option<string>, token: string, answers: seq<Outcome<Page>>, outcome: Outcomes)
    ensures var r := Paging(folderId, token, answers, outcome);
            var n := |r.requests|;
            && (answers != [] ==> n > 0)
            && (forall k :: 0 <= k < n - 1 ==>
                  !EndsPaging(answers[k]) && answers[k].Returned? && FetchIds(PageIds(answers[k]), outcome).end.Complete?)
            && (r.end.Complete? ==> n > 0 && EndsPaging(answers[n - 1]))
            && (n < |answers| ==> EndsPaging(answers[n - 1]) || !r.end.Complete?)
    decreases |answers|
  {
    if answers != [] {
      var got := FetchIds(PageIds(answers[0]), outcome);
      if got.end.Complete? && !EndsPaging(answers[0]) {
        var rest := Paging(folderId, NextToken(answers[0]).value, answers[1..], outcome);
        PagingStops(folderId, NextToken(answers[0]).value, answers[1..], outcome);
        forall k | 1 <= k < |rest.requests| + 1
          ensures answers[k] == answers[1..][k - 1]
        {
        }
      }
    }
  }

  /**
   * The messages of a run are those of the first page, in id order, followed
   * by those of the pages after it: page order, then order within a page.
   */
  lemma PagingMessages(folderId: Option<string>, token: string, answers: seq<Outcome<Page>>, outcome: Outcomes)
    requires answers != []
    ensures var r := Paging(folderId, token, answers, outcome);
            var got := FetchIds(PageIds(answers[0]), outcome);
            && |got.messages| <= |r.messages| && r.messages[..|got.messages|] == got.messages
            && (got.end.Complete? && !EndsPaging(answers[0]) ==>
                  r.messages[|got.messages|..]
                  == Paging(folderId, NextToken(answers[0]).value, answers[1..], outcome).messages)
  {
  }

  /**
   * The inner foreach of FetchAllMessagesInFolder over one page's ids: fetch
   * each id through the Retry loop and, when a message comes back, append it
   * to the journal file and then to `result`; an exception leaving Retry ends it.
   * The journal file (allMessages.json) is the sequence of its records.
   */
  method FetchPage(ids: seq<string>, h: Catch, gets: Gets, ghost outcome: Outcomes, journal: seq<Message>, result: seq<Message>)
    returns (journal': seq<Message>, result': seq<Message>, end: FetchEnd)
    requires forall id :: outcome(id) == RetryResult(h, gets(id))
    ensures journal' == journal + FetchIds(ids, outcome).messages
    ensures result' == result + FetchIds(ids, outcome).messages
    ensures end == FetchIds(ids, outcome).end
  {
    journal', result' := journal, result;
    ghost var added: seq<Message> := [];
    var j := 0;
    while j < |ids|
      invariant 0 <= j <= |ids|
      invariant journal' == journal + added && result' == result + added
      invariant FetchIds(ids[..j], outcome) == Fetched(added, Complete)
    {
      assert ids[..j + 1][..j] == ids[..j];
      var msg, _, _ := RetryWith(h, gets(ids[j]));
      match msg {
        case Done(Some(m)) =>
          journal' := journal' + [m];
          result' := result' + [m];
          added := added + [m];
        case Done(None) =>
        case Failed(f) =>
          FetchIdsAppend(ids[..j + 1], ids[j + 1..], outcome);
          assert ids[..j + 1] + ids[j + 1..] == ids;
          return journal', result', Aborted(f);
        case StillRetrying =>
          FetchIdsAppend(ids[..j + 1], ids[j + 1..], outcome);
          assert ids[..j + 1] + ids[j + 1..] == ids;
          return journal', result', Unfinished;
      }
      j := j + 1;
    }
    assert ids[..j] == ids;
    end := Complete;
  }

  /** Runs chain associatively. */
  lemma ThenAssoc(a: Run, b: Run, c: Run)
    ensures Then(Then(a, b), c) == Then(a, Then(b, c))
  {
    assert (a.requests + b.requests) + c.requests == a.requests + (b.requests + c.requests);
    assert (a.messages + b.messages) + c.messages == a.messages + (b.messages + c.messages);
  }

  /** One turn of the do-while: list the page at `i`, fetch it, and stop or go on with the next token. */
  lemma PagingStep(folderId: Option<string>, token: string, answers: seq<Outcome<Page>>, i: int, outcome: Outcomes)
    requires 0 <= i < |answers|
    ensures var got := FetchIds(PageIds(answers[i]), outcome);
            var first := Run([RequestFor(folderId, token)], got.messages, got.end);
            Paging(folderId, token, answers[i..], outcome)
            == if !got.end.Complete? || EndsPaging(answers[i]) then first
               else Then(first, Paging(folderId, NextToken(answers[i]).value, answers[i + 1..], outcome))
  {
    assert answers[i..][0] == answers[i] && answers[i..][1..] == answers[i + 1..];
  }

  /**
   * What one turn of the loop adds to the run so far: its request and the
   * page's messages; then either the run is over or the rest of the run
   * starts from the next token.
   */
  lemma PagingAdvance(folderId: Option<string>, token: string, answers: seq<Outcome<Page>>, i: int, outcome: Outcomes,
                      requests: seq<ListRequest>, result: seq<Message>)
    requires 0 <= i < |answers|
    ensures var got := FetchIds(PageIds(answers[i]), outcome);
            var so := Then(Run(requests, result, Unfinished), Paging(folderId, token, answers[i..], outcome));
            var requests', result' := requests + [RequestFor(folderId, token)], result + got.messages;
            && (!got.end.Complete? || EndsPaging(answers[i]) ==> so == Run(requests', result', got.end))
            && (got.end.Complete? && !EndsPaging(answers[i]) ==>
                  so == Then(Run(requests', result', Unfinished),
                             Paging(folderId, NextToken(answers[i]).value, answers[i + 1..], outcome)))
  {
    var got := FetchIds(PageIds(answers[i]), outcome);
    var first := Run([RequestFor(folderId, token)], got.messages, got.end);
    PagingStep(folderId, token, answers, i, outcome);
    if got.end.Complete? && !EndsPaging(answers[i]) {
      ThenAssoc(Run(requests, result, Unfinished), first,
                Paging(folderId, NextToken(answers[i]).value, answers[i + 1..], outcome));
    }
  }

  /**
   * The do-while of FetchAllMessagesInFolder with the Retry around each
   * Messages.Get using catch clauses `h`: list page after page (`answers` are
   * the successive Messages.List outcomes), fetch every listed id, append
   * each message to the journal and then to the result.
   */
  method FetchAllWith(folderId: Option<string>, answers: seq<Outcome<Page>>, h: Catch, gets: Gets, ghost outcome: Outcomes,
                      journal: seq<Message>)
    returns (journal': seq<Message>, result: seq<Message>, end: FetchEnd, requests: seq<ListRequest>)
    requires forall id :: outcome(id) == RetryResult(h, gets(id))
    ensures Run(requests, result, end) == Paging(folderId, "", answers, outcome)
    ensures journal' == journal + result
  {
    journal', result, requests := journal, [], [];
    var nextPageToken := "";
    var i := 0;
    while true
      invariant 0 <= i <= |answers|
      invariant Then(Run(requests, result, Unfinished), Paging(folderId, nextPageToken, answers[i..], outcome))
                == Paging(folderId, "", answers, outcome)
      invariant journal' == journal + result
      decreases |answers| - i
    {
      if i == |answers| {
        return journal', result, Unfinished, requests;
      }
      PagingAdvance(folderId, nextPageToken, answers, i, outcome, requests, result);
      var request := RequestFor(folderId, nextPageToken);
      requests := requests + [request];
      var response := Safe(answers[i]);
      var ids := if response.Some? && response.value.messages.Some? then response.value.messages.value else [];
      assert ids == PageIds(answers[i]);
      var pageEnd;
      ghost var before := result;
      journal', result, pageEnd := FetchPage(ids, h, gets, outcome, journal', result);
      Seqs.AppendAssoc(journal, before, FetchIds(ids, outcome).messages);
      if !pageEnd.Complete? || EndsPaging(answers[i]) {
        return journal', result, pageEnd, requests;
      }
      nextPageToken := NextToken(answers[i]).value;
      i := i + 1;
    }
  }

  /**
   * FetchAllMessagesInFolder(folderId): the loop above with Helpers.Retry
   * around each Messages.Get.
   */
  method FetchAllMessagesInFolder(folderId: Option<string>, answers: seq<Outcome<Page>>, gets: Gets, journal: seq<Message>)
    returns (journal': seq<Message>, result: seq<Message>, end: FetchEnd, requests: seq<ListRequest>)
    ensures Run(requests, result, end) == Paging(folderId, "", answers, RetryOutcomes(Handler(RethrowOtherApiErrors), gets))
    ensures journal' == journal + result
  {
    journal', result, end, requests :=
      FetchAllWith(folderId, answers, Handler(RethrowOtherApiErrors), gets, RetryOutcomes(Handler(RethrowOtherApiErrors), gets), journal);
  }

  // ---------------------------------------------------------------------------
  // SendUnsubscribeEmail and CreateMessageBody
  // ---------------------------------------------------------------------------

  /** The recipient and subject read from a "mailto:" link. */
  datatype Mailto = Mailto(to: string, subject: string)

  /**
   * The address/subject split of SendUnsubscribeEmail: drop everything up to
   * the first ':'; if a '?' remains, the recipient is the text before it and
   * the subject is what follows "subject=" in the text between the first and
   * second '?'. When "subject=" is missing, IndexOf gives -1 and the subject
   * starts 7 chars in, or Substring throws when the query is shorter.
   */
  function MailtoSplit(url: string): (r: Result<Mailto, Failure>)
    ensures r.Ok? ==> Text.Lacks(r.value.to, '?')
    ensures r.Err? ==> r.error == OutOfRange
  {
    MailtoAfterColon(url[Text.IndexOf(url, ':') + 1..])
  }

  /** The split of the text after "mailto:". */
  function MailtoAfterColon(withoutMailto: string): (r: Result<Mailto, Failure>)
    ensures r.Ok? ==> Text.Lacks(r.value.to, '?')
    ensures r.Err? ==> r.error == OutOfRange
  {
    if Text.Lacks(withoutMailto, '?') then
      Ok(Mailto(withoutMailto, ""))
    else
      var parts := Text.Split(withoutMailto, '?');
      Text.SplitPiecesLack(withoutMailto, '?');
      Text.SplitSecond(withoutMailto, '?');
      var query := parts[1];
      var start := Text.IndexOfText(query, "subject=") + 8;
      if start > |query| then Err(OutOfRange) else Ok(Mailto(parts[0], query[start..]))
  }

  /**
   * The split of every url, with `w` the url past its first ':'. The
   * recipient is the text before the first '?' of `w`. The query runs from
   * that '?' to the next one, or to the end. The subject is what follows the
   * first "subject=" in the query; without one, IndexOf's -1 makes it start 7
   * chars in. Substring throws when that start is past the end of the query.
   * With no '?', the subject is empty.
   */
  lemma MailtoSplitAll(url: string, w: string)
    requires w == url[Text.IndexOf(url, ':') + 1..]
    ensures var q := Text.IndexOf(w, '?');
            var rest := w[q + 1..];
            var q2 := Text.IndexOf(rest, '?');
            var query := if q2 == -1 then rest else rest[..q2];
            var start := Text.IndexOfText(query, "subject=") + 8;
            MailtoSplit(url) == if q == -1 then Ok(Mailto(w, ""))
                                else if start > |query| then Err(OutOfRange)
                                else Ok(Mailto(w[..q], query[start..]))
  {
    MailtoAfterColonAll(w);
  }

  /** MailtoSplitAll for the text after the first ':'. */
  lemma MailtoAfterColonAll(w: string)
    ensures var q := Text.IndexOf(w, '?');
            var rest := w[q + 1..];
            var q2 := Text.IndexOf(rest, '?');
            var query := if q2 == -1 then rest else rest[..q2];
            var start := Text.IndexOfText(query, "subject=") + 8;
            MailtoAfterColon(w) == if q == -1 then Ok(Mailto(w, ""))
                                   else if start > |query| then Err(OutOfRange)
                                   else Ok(Mailto(w[..q], query[start..]))
  {
    if !Text.Lacks(w, '?') {
      Text.SplitSecond(w, '?');
    }
  }

  /** The text "mailto:" followed by an address and, when there is one, "?" and a query. */
  function MailtoLink(to: string, query: Option<string>): string
  {
    "mailto:" + to + (if query.Some? then "?" + query.value else "")
  }

  /** Splitting "mailto:{to}?{query}" gives `to` and the query, for texts free of '?'. */
  lemma MailtoQuery(to: string, query: string)
    requires Text.Lacks(to, '?') && Text.Lacks(query, '?')
    ensures var w := to + "?" + query;
            && MailtoLink(to, Some(query))[Text.IndexOf(MailtoLink(to, Some(query)), ':') + 1..] == w
            && !Text.Lacks(w, '?')
            && Text.Split(w, '?') == [to, query]
  {
    var url := MailtoLink(to, Some(query));
    var w := to + "?" + query;
    assert url == "mailto:" + w;
    Text.IndexOfUnique(url, ':', 6);
    assert url[7..] == w;
    assert w[|to|] == '?';
    assert Text.Join([to, query], '?') == w;
    Text.SplitJoin([to, query], '?');
  }

  /** "mailto:{to}?subject={subject}" gives back `to` and `subject`, for texts free of '?'. */
  lemma MailtoRoundTrip(to: string, subject: string)
    requires Text.Lacks(to, '?') && Text.Lacks(subject, '?')
    ensures MailtoSplit(MailtoLink(to, Some("subject=" + subject))) == Ok(Mailto(to, subject))
  {
    var query := "subject=" + subject;
    assert Text.Lacks(query, '?') by {
      assert forall i :: 8 <= i < |query| ==> query[i] == subject[i - 8];
    }
    MailtoQuery(to, query);
    assert Text.OccursAt(query, "subject=", 0);
    assert query[8..] == subject;
  }

  /** Without a '?' the whole text after the first ':' is the recipient and the subject is empty. */
  lemma MailtoWithoutQuery(to: string)
    requires Text.Lacks(to, '?')
    ensures MailtoSplit(MailtoLink(to, None)) == Ok(Mailto(to, ""))
  {
    var url := MailtoLink(to, None);
    Text.IndexOfUnique(url, ':', 6);
    assert url[7..] == to;
  }

  /**
   * A query without "subject=" yields its text from index 7 on (IndexOf's -1
   * plus 8), or an out-of-range Substring when it is shorter than 7 chars.
   */
  lemma MailtoWithoutSubjectKey(to: string, query: string)
    requires Text.Lacks(to, '?') && Text.Lacks(query, '?')
    requires forall j :: 0 <= j <= |query| ==> !Text.OccursAt(query, "subject=", j)
    ensures MailtoSplit(MailtoLink(to, Some(query)))
            == if |query| < 7 then Err(OutOfRange) else Ok(Mailto(to, query[7..]))
  {
    MailtoQuery(to, query);
    assert Text.IndexOfText(query, "subject=") == -1;
  }

  /** The four parts of an e-mail as CreateMessageBody lays them out. */
  datatype MessageFields = MessageFields(from: string, to: string, subject: string, body: string)

  /** CreateMessageBody's text, before UTF-8 and Base64 encoding. */
  function MessageText(from: string, to: string, subject: string, body: string): string
  {
    "From: " + from + "\r\nTo: " + to + "\r\nSubject: " + subject + "\r\n\r\n" + body
  }

  /** The fields of a text in CreateMessageBody's layout, read back line by line. */
  function ReadMessageText(text: string): Option<MessageFields>
  {
    var lines := Text.Split(text, '\r');
    if && |lines| == 5
       && Text.StartsWith(lines[0], "From: ") && Text.StartsWith(lines[1], "\nTo: ")
       && Text.StartsWith(lines[2], "\nSubject: ") && lines[3] == "\n" && Text.StartsWith(lines[4], "\n")
    then Some(MessageFields(lines[0][6..], lines[1][5..], lines[2][10..], lines[4][1..]))
    else None
  }

  /** The five '\r'-separated lines of CreateMessageBody's text. */
  function MessageLines(from: string, to: string, subject: string, body: string): seq<string>
  {
    ["From: " + from, "\nTo: " + to, "\nSubject: " + subject, "\n", "\n" + body]
  }

  /** The text is its lines joined with '\r', and splitting it at '\r' gives them back. */
  lemma MessageTextLines(from: string, to: string, subject: string, body: string)
    requires Text.Lacks(from, '\r') && Text.Lacks(to, '\r') && Text.Lacks(subject, '\r') && Text.Lacks(body, '\r')
    ensures Text.Split(MessageText(from, to, subject, body), '\r') == MessageLines(from, to, subject, body)
  {
    var lines := MessageLines(from, to, subject, body);
    Text.LacksAppend("From: ", from, '\r');
    Text.LacksAppend("\nTo: ", to, '\r');
    Text.LacksAppend("\nSubject: ", subject, '\r');
    Text.LacksAppend("\n", body, '\r');
    MessageTextJoin(from, to, subject, body);
    Text.SplitJoin(lines, '\r');
  }

  /**
   * The text is its lines "From: {from}", "\nTo: {to}", "\nSubject: {subject}",
   * "\n" and "\n{body}", joined with '\r'.
   */
  lemma MessageTextJoin(from: string, to: string, subject: string, body: string)
    ensures Text.Join(MessageLines(from, to, subject, body), '\r') == MessageText(from, to, subject, body)
  {
    JoinFive(MessageLines(from, to, subject, body), '\r');
  }

  /**
   * The layout is exactly "From: {from}\r\nTo: {to}\r\nSubject: {subject}\r\n\r\n{body}":
   * its lines, read back, give the four fields when none holds a '\r'.
   */
  lemma MessageTextRoundTrip(from: string, to: string, subject: string, body: string)
    requires Text.Lacks(from, '\r') && Text.Lacks(to, '\r') && Text.Lacks(subject, '\r') && Text.Lacks(body, '\r')
    ensures ReadMessageText(MessageText(from, to, subject, body)) == Some(MessageFields(from, to, subject, body))
  {
    MessageTextLines(from, to, subject, body);
    var lines := MessageLines(from, to, subject, body);
    assert lines[0][6..] == from && lines[1][5..] == to && lines[2][10..] == subject && lines[4][1..] == body;
  }

  /** Five pieces joined with `c`. */
  lemma JoinFive(p: seq<string>, c: char)
    requires |p| == 5
    ensures Text.Join(p, c) == p[0] + [c] + p[1] + [c] + p[2] + [c] + p[3] + [c] + p[4]
  {
    var a1 := [p[0]];
    var a2 := a1 + [p[1]];
    var a3 := a2 + [p[2]];
    var a4 := a3 + [p[3]];
    Text.JoinSnoc(a1, p[1], c);
    Text.JoinSnoc(a2, p[2], c);
    Text.JoinSnoc(a3, p[3], c);
    Text.JoinSnoc(a4, p[4], c);
    assert a4 + [p[4]] == p;
  }

  /**
   * How GmailExtensions.SendUnsubscribeEmail ends: it returns having built and
   * tried to send `text`, or the mailto split throws, or its Retry is still
   * calling Send when the scripted attempts run out.
   */
  datatype EmailEnd = Emailed(text: string) | SplitThrew(failure: Failure) | StillSending

  /**
   * GmailExtensions.SendUnsubscribeEmail(email, url): build the e-mail from
   * the mailto split and send it through Helpers.Retry; whatever the send
   * throws is caught. The only exception that leaves is Substring's, before
   * anything is sent. `attempts` are the outcomes of the Send call.
   */
  method SendUnsubscribeEmail(email: string, url: string, attempts: seq<Attempt<Message>>)
    returns (r: EmailEnd)
    ensures r.SplitThrew? <==> MailtoSplit(url).Err?
    ensures r.SplitThrew? ==> r.failure == OutOfRange
    ensures r.StillSending? <==> MailtoSplit(url).Ok? && FirstStop(Handler(RethrowOtherApiErrors), attempts) == |attempts|
    ensures r.Emailed? ==> r.text == MessageText(email, MailtoSplit(url).value.to, MailtoSplit(url).value.subject, "")
  {
    var mailto := MailtoSplit(url);
    if mailto.Err? {
      return SplitThrew(mailto.error);
    }
    var raw := MessageText(email, mailto.value.to, mailto.value.subject, "");
    var end, _, _ := Retry(RethrowOtherApiErrors, attempts);
    if end.StillRetrying? {
      return StillSending;
    }
    r := Emailed(raw);
  }
}
