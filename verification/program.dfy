/**
 * The unsubscribe pipeline of Program.Main: find the "Crap" folder, read the
 * journal of fetched messages, set aside the messages without a
 * List-Unsubscribe header, group the others by sender, and for each group
 * act on the targets its first message's List-Unsubscribe header names:
 * e-mail the "mailto" ones, visit the others.
 */
module Program {
  import opened Wrappers
  import Seqs
  import Text
  import opened Helpers
  import opened GmailExtensions

  /** The account the unsubscribe e-mails are sent from. */
  const EmailAddress := "jfwallac@gmail.com"

  /** The folder whose messages are processed. */
  const FolderName := "Crap"

  /** The header that lists a message's unsubscribe targets. */
  const UnsubscribeHeader := "List-Unsubscribe"

  // ---------------------------------------------------------------------------
  // Headers
  // ---------------------------------------------------------------------------

  /** The header is named `name`, ignoring case. */
  predicate NamedHeader(h: Header, name: string)
  {
    Text.EqualsIgnoreCase(h.name, name)
  }

  /** `headers.FirstOrDefault(h => h.Name.Equals(name, OrdinalIgnoreCase))`. */
  function FindHeader(headers: seq<Header>, name: string): (r: Option<Header>)
    ensures r.None? <==> forall i :: 0 <= i < |headers| ==> !NamedHeader(headers[i], name)
    ensures r.Some? ==> r.value in headers && NamedHeader(r.value, name)
  {
    var i := Seqs.FirstWhere(headers, h => NamedHeader(h, name));
    if i == -1 then None else Some(headers[i])
  }

  /** The header found is the first one with that name. */
  lemma FindHeaderFirst(headers: seq<Header>, name: string, i: int)
    requires 0 <= i < |headers| && NamedHeader(headers[i], name)
    requires forall j :: 0 <= j < i ==> !NamedHeader(headers[j], name)
    ensures FindHeader(headers, name) == Some(headers[i])
  {
    var k := Seqs.FirstWhere(headers, h => NamedHeader(h, name));
    assert k == i;
  }

  /** The message carries a List-Unsubscribe header. */
  predicate HasDirective(m: Message)
  {
    FindHeader(m.headers, UnsubscribeHeader).Some?
  }

  // ---------------------------------------------------------------------------
  // Classification: toUnsubscribe and toDelete
  // ---------------------------------------------------------------------------

  /** `messages.Where(...)`: the messages with (`directive`) or without a List-Unsubscribe header, in order. */
  function Where(messages: seq<Message>, directive: bool): (r: seq<Message>)
    ensures |r| <= |messages|
    ensures forall i :: 0 <= i < |r| ==> HasDirective(r[i]) == directive
  {
    if messages == [] then []
    else (if HasDirective(messages[0]) == directive then [messages[0]] else []) + Where(messages[1..], directive)
  }

  /** The messages to unsubscribe from. */
  function ToUnsubscribe(messages: seq<Message>): seq<Message>
  {
    Where(messages, true)
  }

  /** The messages to delete. */
  function ToDelete(messages: seq<Message>): seq<Message>
  {
    Where(messages, false)
  }

  /** Filtering keeps source order: it distributes over concatenation. */
  lemma {:induction false} WhereAppend(xs: seq<Message>, ys: seq<Message>, directive: bool)
    ensures Where(xs + ys, directive) == Where(xs, directive) + Where(ys, directive)
  {
    if xs == [] {
      assert xs + ys == ys;
    } else {
      assert (xs + ys)[1..] == xs[1..] + ys;
      WhereAppend(xs[1..], ys, directive);
    }
  }

  /** A message is kept exactly when it is in the input and has (or lacks) the header. */
  lemma {:induction false} WhereMembers(messages: seq<Message>, directive: bool, m: Message)
    ensures m in Where(messages, directive) <==> m in messages && HasDirective(m) == directive
  {
    if messages != [] {
      WhereMembers(messages[1..], directive, m);
      assert messages == [messages[0]] + messages[1..];
    }
  }

  /** toUnsubscribe and toDelete split allMessages: every message lands in exactly one, as often as it occurs. */
  lemma {:induction false} Partition(messages: seq<Message>)
    ensures multiset(ToUnsubscribe(messages)) + multiset(ToDelete(messages)) == multiset(messages)
  {
    if messages != [] {
      var m, rest := messages[0], messages[1..];
      Partition(rest);
      assert messages == [m] + rest;
      assert ToUnsubscribe(messages) == (if HasDirective(m) then [m] else []) + ToUnsubscribe(rest);
      assert ToDelete(messages) == (if HasDirective(m) then [] else [m]) + ToDelete(rest);
    }
  }

  // ---------------------------------------------------------------------------
  // Grouping by sender
  // ---------------------------------------------------------------------------

  /**
   * The GroupBy key of a message: the value of its first From header, else of
   * its first Reply-To header; with neither, reading `replyHeader.Value`
   * throws a NullReferenceException, modelled as None.
   */
  function SenderKey(m: Message): (r: Option<string>)
    ensures r.None? <==> forall i :: 0 <= i < |m.headers| ==>
                           !NamedHeader(m.headers[i], "From") && !NamedHeader(m.headers[i], "Reply-To")
  {
    var from := FindHeader(m.headers, "From");
    var reply := FindHeader(m.headers, "Reply-To");
    if from.Some? then Some(from.value.value)
    else if reply.Some? then Some(reply.value.value)
    else None
  }

  /** A message with a From header is keyed by the value of the first one. */
  lemma SenderFrom(m: Message, i: int)
    requires 0 <= i < |m.headers| && NamedHeader(m.headers[i], "From")
    requires forall j :: 0 <= j < i ==> !NamedHeader(m.headers[j], "From")
    ensures SenderKey(m) == Some(m.headers[i].value)
  {
    FindHeaderFirst(m.headers, "From", i);
  }

  /** A message without a From header is keyed by the value of its first Reply-To header. */
  lemma SenderReplyTo(m: Message, i: int)
    requires forall j :: 0 <= j < |m.headers| ==> !NamedHeader(m.headers[j], "From")
    requires 0 <= i < |m.headers| && NamedHeader(m.headers[i], "Reply-To")
    requires forall j :: 0 <= j < i ==> !NamedHeader(m.headers[j], "Reply-To")
    ensures SenderKey(m) == Some(m.headers[i].value)
  {
    FindHeaderFirst(m.headers, "Reply-To", i);
  }

  /** A message with its GroupBy key. */
  datatype Keyed = Keyed(key: string, message: Message)

  /**
   * The keys of all messages, in order; None when some message has neither
   * header, whose key selector throws as soon as the groups are enumerated.
   */
  function KeyAll(messages: seq<Message>): (r: Option<seq<Keyed>>)
    ensures r.None? <==> exists i :: 0 <= i < |messages| && SenderKey(messages[i]).None?
    ensures r.Some? ==> |r.value| == |messages|
                        && forall i :: 0 <= i < |messages| ==> r.value[i] == Keyed(SenderKey(messages[i]).value, messages[i])
  {
    if messages == [] then Some([])
    else
      var init, last := messages[..|messages| - 1], messages[|messages| - 1];
      match KeyAll(init)
      case None => None
      case Some(keyed) =>
        var key := SenderKey(last);
        if key.None? then None else Some(keyed + [Keyed(key.value, last)])
  }

  /** One group of GroupBy: its key and its messages, in input order. */
  datatype Group = Group(key: string, members: seq<Message>)

  /** The position of the group with key `key`, or -1. */
  function KeyIndex(groups: seq<Group>, key: string): (i: int)
    ensures -1 <= i < |groups|
    ensures 0 <= i ==> groups[i].key == key
    ensures i == -1 <==> forall j :: 0 <= j < |groups| ==> groups[j].key != key
  {
    if groups == [] then -1
    else if groups[|groups| - 1].key == key then |groups| - 1
    else KeyIndex(groups[..|groups| - 1], key)
  }

  /** The groups after one more message: appended to its key's group, or starting a new group at the end. */
  function AddTo(groups: seq<Group>, x: Keyed): (r: seq<Group>)
  {
    var i := KeyIndex(groups, x.key);
    if i == -1 then groups + [Group(x.key, [x.message])]
    else groups[i := Group(groups[i].key, groups[i].members + [x.message])]
  }

  /** The keys are pairwise distinct. */
  predicate DistinctKeys(groups: seq<Group>)
  {
    forall i, j :: 0 <= i < j < |groups| ==> groups[i].key != groups[j].key
  }

  /**
   * `GroupBy(key)`: one group per distinct key, in the order the keys first
   * occur; no group is empty.
   */
  function GroupBy(xs: seq<Keyed>): (r: seq<Group>)
    ensures DistinctKeys(r)
    ensures forall i :: 0 <= i < |r| ==> r[i].members != []
    ensures |r| <= |xs|
  {
    if xs == [] then []
    else AddTo(GroupBy(xs[..|xs| - 1]), xs[|xs| - 1])
  }

  /** The messages of `xs` with key `key`, in order. */
  function MembersWith(xs: seq<Keyed>, key: string): seq<Message>
  {
    if xs == [] then []
    else MembersWith(xs[..|xs| - 1], key) + (if xs[|xs| - 1].key == key then [xs[|xs| - 1].message] else [])
  }

  /** Every member under `key` comes from an entry of `xs` with that key. */
  lemma {:induction false} MembersWithKeyed(xs: seq<Keyed>, key: string)
    ensures forall m :: m in MembersWith(xs, key) ==> Keyed(key, m) in xs
  {
    if xs != [] {
      var init := xs[..|xs| - 1];
      MembersWithKeyed(init, key);
      assert xs == init + [xs[|xs| - 1]];
    }
  }

  /** A key that never occurs has no members. */
  lemma {:induction false} MembersWithAbsent(xs: seq<Keyed>, key: string)
    requires forall j :: 0 <= j < |xs| ==> xs[j].key != key
    ensures MembersWith(xs, key) == []
  {
    if xs != [] {
      MembersWithAbsent(xs[..|xs| - 1], key);
    }
  }

  /** The keys of the groups, in group order. */
  function Keys(groups: seq<Group>): (r: seq<string>)
    ensures |r| == |groups| && forall i :: 0 <= i < |groups| ==> r[i] == groups[i].key
  {
    seq(|groups|, i requires 0 <= i < |groups| => groups[i].key)
  }

  /** The keys of the input, in input order. */
  function KeysOf(xs: seq<Keyed>): (r: seq<string>)
    ensures |r| == |xs| && forall i :: 0 <= i < |xs| ==> r[i] == xs[i].key
  {
    seq(|xs|, i requires 0 <= i < |xs| => xs[i].key)
  }

  /** The keys with repeats dropped, each kept where it first occurs. */
  function Distinct(keys: seq<string>): seq<string>
  {
    if keys == [] then []
    else
      var d := Distinct(keys[..|keys| - 1]);
      if keys[|keys| - 1] in d then d else d + [keys[|keys| - 1]]
  }

  /** Dropping repeats keeps every key. */
  lemma {:induction false} DistinctKeeps(keys: seq<string>)
    ensures forall k :: k in Distinct(keys) <==> k in keys
  {
    if keys != [] {
      DistinctKeeps(keys[..|keys| - 1]);
      assert keys == keys[..|keys| - 1] + [keys[|keys| - 1]];
    }
  }

  /**
   * The groups come in the order their keys first occur in the input, one
   * group per distinct key.
   */
  lemma {:induction false} GroupByKeys(xs: seq<Keyed>)
    ensures Keys(GroupBy(xs)) == Distinct(KeysOf(xs))
  {
    if xs != [] {
      var init, x := xs[..|xs| - 1], xs[|xs| - 1];
      var g := GroupBy(init);
      GroupByKeys(init);
      assert KeysOf(xs)[..|xs| - 1] == KeysOf(init);
      var d := Distinct(KeysOf(init));
      assert Distinct(KeysOf(xs)) == if x.key in d then d else d + [x.key];
      if KeyIndex(g, x.key) == -1 {
        GroupsOnAppend(g, x);
        assert x.key !in Keys(g);
        assert Keys(GroupBy(xs)) == Keys(g) + [x.key];
      } else {
        GroupsOnUpdate(g, x);
        assert Keys(g)[KeyIndex(g, x.key)] == x.key;
        assert Keys(GroupBy(xs)) == Keys(g);
      }
    }
  }

  /** Every key of the input has a group. */
  lemma GroupByCovers(xs: seq<Keyed>)
    ensures forall j :: 0 <= j < |xs| ==> KeyIndex(GroupBy(xs), xs[j].key) != -1
  {
    var g := GroupBy(xs);
    GroupByKeys(xs);
    DistinctKeeps(KeysOf(xs));
    forall j | 0 <= j < |xs| ensures KeyIndex(g, xs[j].key) != -1 {
      assert KeysOf(xs)[j] == xs[j].key;
      assert xs[j].key in Keys(g);
    }
  }

  /** Each group holds exactly the messages with its key, in input order. */
  lemma {:induction false} GroupByMembers(xs: seq<Keyed>)
    ensures forall i :: 0 <= i < |GroupBy(xs)| ==> GroupBy(xs)[i].members == MembersWith(xs, GroupBy(xs)[i].key)
  {
    if xs != [] {
      var init, x := xs[..|xs| - 1], xs[|xs| - 1];
      var g := GroupBy(init);
      GroupByMembers(init);
      var r := GroupBy(xs);
      var k := KeyIndex(g, x.key);
      if k == -1 {
        GroupByCovers(init);
        NewKey(init, x.key);
        MembersWithAbsent(init, x.key);
        GroupsOnAppend(g, x);
        forall i | 0 <= i < |r| ensures r[i].members == MembersWith(xs, r[i].key) {
          if i < |g| {
            assert r[i] == g[i];
            assert g[i].key != x.key;
          }
        }
      } else {
        forall i | 0 <= i < |r| ensures r[i].members == MembersWith(xs, r[i].key) {
          if i == k {
            assert r[i] == Group(g[k].key, g[k].members + [x.message]);
          } else {
            assert r[i] == g[i];
            assert g[i].key != x.key;
          }
        }
      }
    }
  }

  /** A key without a group does not occur in the input. */
  lemma NewKey(xs: seq<Keyed>, key: string)
    requires forall j :: 0 <= j < |xs| ==> KeyIndex(GroupBy(xs), xs[j].key) != -1
    requires KeyIndex(GroupBy(xs), key) == -1
    ensures forall j :: 0 <= j < |xs| ==> xs[j].key != key
  {
    var g := GroupBy(xs);
    forall j | 0 <= j < |xs| ensures xs[j].key != key {
      assert g[KeyIndex(g, xs[j].key)].key == xs[j].key;
    }
  }

  /** A message with a new key adds a group at the end and leaves the others as they were. */
  lemma GroupsOnAppend(g: seq<Group>, x: Keyed)
    requires KeyIndex(g, x.key) == -1
    ensures AddTo(g, x) == g + [Group(x.key, [x.message])]
    ensures forall key :: KeyIndex(g, key) != -1 ==> KeyIndex(AddTo(g, x), key) != -1
  {
    var r := AddTo(g, x);
    forall key | KeyIndex(g, key) != -1 ensures KeyIndex(r, key) != -1 {
      assert r[KeyIndex(g, key)].key == key;
    }
  }

  /** A message with a known key changes only that key's group; the keys stay as they were. */
  lemma GroupsOnUpdate(g: seq<Group>, x: Keyed)
    requires KeyIndex(g, x.key) != -1
    ensures |AddTo(g, x)| == |g|
    ensures forall i :: 0 <= i < |g| ==> AddTo(g, x)[i].key == g[i].key
    ensures forall key :: KeyIndex(g, key) != -1 ==> KeyIndex(AddTo(g, x), key) != -1
  {
    var r := AddTo(g, x);
    forall key | KeyIndex(g, key) != -1 ensures KeyIndex(r, key) != -1 {
      assert r[KeyIndex(g, key)].key == key;
    }
  }

  /** The messages of the groups, one group after another. */
  function Members(groups: seq<Group>): (r: seq<seq<Message>>)
    ensures |r| == |groups| && forall i :: 0 <= i < |groups| ==> r[i] == groups[i].members
  {
    seq(|groups|, i requires 0 <= i < |groups| => groups[i].members)
  }

  /** The messages of the input with their keys stripped. */
  function Messages(xs: seq<Keyed>): (r: seq<Message>)
    ensures |r| == |xs| && forall i :: 0 <= i < |xs| ==> r[i] == xs[i].message
  {
    seq(|xs|, i requires 0 <= i < |xs| => xs[i].message)
  }

  /** Adding a message to the groups adds it once to their concatenation. */
  lemma AddToMultiset(groups: seq<Group>, x: Keyed)
    ensures multiset(Seqs.Flatten(Members(AddTo(groups, x)))) == multiset(Seqs.Flatten(Members(groups))) + multiset{x.message}
  {
    var i := KeyIndex(groups, x.key);
    if i == -1 {
      assert Members(groups + [Group(x.key, [x.message])]) == Members(groups) + [[x.message]];
      Seqs.FlattenAppend(Members(groups), [[x.message]]);
      assert Seqs.Flatten([[x.message]]) == [x.message];
    } else {
      var a, b := groups[..i], groups[i + 1..];
      var g := groups[i];
      var g' := Group(g.key, g.members + [x.message]);
      assert groups == a + [g] + b;
      assert AddTo(groups, x) == a + [g'] + b;
      FlattenThree(a, g, b);
      FlattenThree(a, g', b);
    }
  }

  /** The concatenation of groups `a`, then `g`, then `b`. */
  lemma FlattenThree(a: seq<Group>, g: Group, b: seq<Group>)
    ensures Seqs.Flatten(Members(a + [g] + b)) == Seqs.Flatten(Members(a)) + g.members + Seqs.Flatten(Members(b))
  {
    assert Members(a + [g] + b) == Members(a) + ([g.members] + Members(b));
    Seqs.FlattenAppend(Members(a), [g.members] + Members(b));
    assert Seqs.Flatten([g.members] + Members(b)) == g.members + Seqs.Flatten(Members(b));
  }

  /** Concatenating the groups is a permutation of the input: nothing lost, nothing duplicated. */
  lemma {:induction false} GroupByPermutation(xs: seq<Keyed>)
    ensures multiset(Seqs.Flatten(Members(GroupBy(xs)))) == multiset(Messages(xs))
  {
    if xs != [] {
      var init, x := xs[..|xs| - 1], xs[|xs| - 1];
      GroupByPermutation(init);
      AddToMultiset(GroupBy(init), x);
      assert Messages(xs) == Messages(init) + [x.message];
    }
  }

  /** Every group member carries the header when every input message does. */
  lemma {:induction false} GroupByKeepsDirective(xs: seq<Keyed>)
    requires forall j :: 0 <= j < |xs| ==> HasDirective(xs[j].message)
    ensures forall i, k :: 0 <= i < |GroupBy(xs)| && 0 <= k < |GroupBy(xs)[i].members| ==> HasDirective(GroupBy(xs)[i].members[k])
  {
    if xs != [] {
      GroupByKeepsDirective(xs[..|xs| - 1]);
    }
  }

  // ---------------------------------------------------------------------------
  // ExtractUnsubscribeUrl
  // ---------------------------------------------------------------------------

  /** `c` first occurs in `s` at `i`. */
  predicate FirstAt(s: string, i: int, c: char)
  {
    0 <= i < |s| && s[i] == c && forall j :: 0 <= j < i ==> s[j] != c
  }

  /**
   * ExtractUnsubscribeUrl(headerValue): the text strictly between the first
   * '<' and the first '>', when both occur and the '>' comes after the '<';
   * null otherwise.
   */
  function ExtractUnsubscribeUrl(headerValue: string): (r: Option<string>)
    ensures Text.Lacks(headerValue, '<') || Text.Lacks(headerValue, '>') ==> r.None?
    ensures forall i, j :: FirstAt(headerValue, i, '<') && FirstAt(headerValue, j, '>') ==>
                           (r.Some? <==> i < j) && (i < j ==> r == Some(headerValue[i + 1..j]))
  {
    var urlStart := Text.IndexOf(headerValue, '<');
    var urlEnd := Text.IndexOf(headerValue, '>');
    if urlStart >= 0 && urlEnd > urlStart then Some(headerValue[urlStart + 1..urlEnd]) else None
  }

  /** "<url>" behind text without brackets gives the url, whatever follows. */
  lemma ExtractBracketed(pre: string, url: string, post: string)
    requires Text.Lacks(pre, '<') && Text.Lacks(pre, '>') && Text.Lacks(url, '>')
    ensures ExtractUnsubscribeUrl(pre + "<" + url + ">" + post) == Some(url)
  {
    var v := pre + "<" + url + ">" + post;
    var i, j := |pre|, |pre| + 1 + |url|;
    assert FirstAt(v, i, '<');
    assert FirstAt(v, j, '>') by {
      forall k | 0 <= k < j ensures v[k] != '>' {
        if k > i { assert v[k] == url[k - i - 1]; }
      }
    }
    assert v[i + 1..j] == url;
  }

  /** Text without brackets has no url. */
  lemma NoBracketsHere()
    ensures ExtractUnsubscribeUrl("no-brackets-here") == None
  {
    assert Text.Lacks("no-brackets-here", '<');
  }

  /** One target per comma-separated piece of the header value, in order. */
  function Targets(headerValue: string): (r: seq<Option<string>>)
    ensures |r| == |Text.Split(headerValue, ',')|
    ensures forall i :: 0 <= i < |r| ==> r[i] == ExtractUnsubscribeUrl(Text.Split(headerValue, ',')[i])
  {
    var pieces := Text.Split(headerValue, ',');
    seq(|pieces|, i requires 0 <= i < |pieces| => ExtractUnsubscribeUrl(pieces[i]))
  }

  // ---------------------------------------------------------------------------
  // Acting on the targets
  // ---------------------------------------------------------------------------

  /** What Main did about one target. */
  datatype Action =
    | SendMail(to: string, subject: string) // an unsubscribe e-mail went out
    | Visit(url: string, reached: bool)     // a GET of the url; `reached` is false when it threw and was logged

  /** Why Main stopped before the end. */
  datatype Halt =
    | FolderNotFound         // GetFolderId gave null or "": Main returns
    | NoSender               // a message has neither From nor Reply-To: the key selector throws
    | NoDirective            // a group's first message has no List-Unsubscribe header: `.Value` on null throws
    | NullTarget             // a piece without "<...>": StartsWith on null throws
    | Crash(failure: Failure) // an exception out of SendUnsubscribeEmail
    | Hang                   // the Retry around Send was still calling again when the scripted attempts ran out

  /** The actions Main took, in order, and why it stopped early, if it did. */
  datatype Report = Report(actions: seq<Action>, halt: Option<Halt>)

  /** The attempts of the Send call for each e-mail text. */
  type Sends = string -> seq<Attempt<Message>>

  /** How Program.Retry around the Send call ends, for each e-mail text. */
  type SendEnds = string -> RetryEnd<Message>

  /** The ends of Program.Retry over the attempts `sends` scripts. */
  function SendEndsOf(sends: Sends): SendEnds
  {
    text => RetryResult(Handler(RetryOtherApiErrors), sends(text))
  }

  /**
   * Program.SendUnsubscribeEmail(url): split the link into recipient and
   * subject, build the e-mail from EmailAddress, and send it through
   * Program.Retry; nothing is caught, so a Substring failure or an exception
   * out of Retry leaves Main.
   */
  function SendStep(url: string, sent: SendEnds): (r: Result<Action, Halt>)
    ensures r.Ok? <==> MailtoSplit(url).Ok?
                       && sent(MessageText(EmailAddress, MailtoSplit(url).value.to, MailtoSplit(url).value.subject, "")).Done?
    ensures r.Ok? ==> r.value == SendMail(MailtoSplit(url).value.to, MailtoSplit(url).value.subject)
    ensures r.Err? ==> r.error.Crash? || r.error.Hang?
    ensures MailtoSplit(url).Err? ==> r == Err(Crash(MailtoSplit(url).error))
    ensures MailtoSplit(url).Ok? ==>
              var e := sent(MessageText(EmailAddress, MailtoSplit(url).value.to, MailtoSplit(url).value.subject, ""));
              && (e.Failed? ==> r == Err(Crash(e.failure)))
              && (e.StillRetrying? ==> r == Err(Hang))
  {
    match MailtoSplit(url)
    case Err(f) => Err(Crash(f))
    case Ok(mailto) =>
      match sent(MessageText(EmailAddress, mailto.to, mailto.subject, ""))
      case Done(_) => Ok(SendMail(mailto.to, mailto.subject))
      case Failed(f) => Err(Crash(f))
      case StillRetrying => Err(Hang)
  }

  /** Program.Retry never lets a non-429 API error out of the send: it calls again instead. */
  lemma SendNeverApiError(url: string, sends: Sends)
    ensures var r := SendStep(url, SendEndsOf(sends));
            r.Err? && r.error.Crash? ==> !r.error.failure.ApiError?
  {
    var mailto := MailtoSplit(url);
    if mailto.Ok? {
      ProgramRetryKeepsApiErrors(sends(MessageText(EmailAddress, mailto.value.to, mailto.value.subject, "")));
    }
  }

  /** Program.SendUnsubscribeEmail, with the Send call's attempts scripted by `sends`. */
  method SendUnsubscribeEmail(url: string, sends: Sends, ghost sent: SendEnds) returns (r: Result<Action, Halt>)
    requires forall text :: sent(text) == RetryResult(Handler(RetryOtherApiErrors), sends(text))
    ensures r == SendStep(url, sent)
  {
    var mailto := MailtoSplit(url);
    if mailto.Err? {
      return Err(Crash(mailto.error));
    }
    var raw := MessageText(EmailAddress, mailto.value.to, mailto.value.subject, "");
    var end, _, _ := Retry(RetryOtherApiErrors, sends(raw));
    match end {
      case Done(_) => r := Ok(SendMail(mailto.value.to, mailto.value.subject));
      case Failed(f) => r := Err(Crash(f));
      case StillRetrying => r := Err(Hang);
    }
  }

  /**
   * One pass of the inner foreach: a "mailto" target is e-mailed, any other
   * is visited with its failure caught; a null target throws. `visits` says
   * whether the GET of a url completed.
   */
  function DispatchOne(target: Option<string>, visits: string -> bool, sent: SendEnds): (r: Result<Action, Halt>)
    ensures r.Err? ==> target.None? || Text.StartsWith(target.value, "mailto")
    ensures r.Ok? && r.value.Visit? ==> target == Some(r.value.url) && !Text.StartsWith(r.value.url, "mailto")
    ensures r.Ok? && r.value.SendMail? ==> target.Some? && Text.StartsWith(target.value, "mailto")
    ensures target.None? ==> r == Err(NullTarget)
    ensures target.Some? && Text.StartsWith(target.value, "mailto") ==> r == SendStep(target.value, sent)
  {
    match target
    case None => Err(NullTarget)
    case Some(url) =>
      if Text.StartsWith(url, "mailto") then SendStep(url, sent)
      else Ok(Visit(url, visits(url)))
  }

  /** A visit never stops the loop, whether or not the GET completed. */
  lemma VisitContinues(url: string, visits: string -> bool, sent: SendEnds)
    requires !Text.StartsWith(url, "mailto")
    ensures DispatchOne(Some(url), visits, sent) == Ok(Visit(url, visits(url)))
  {
  }

  /** The targets acted on in order until the first one that throws. */
  function DispatchAll(targets: seq<Option<string>>, visits: string -> bool, sent: SendEnds): (r: Report)
    ensures |r.actions| <= |targets|
    ensures r.halt.Some? ==> r.halt.value.NullTarget? || r.halt.value.Crash? || r.halt.value.Hang?
  {
    if targets == [] then Report([], None)
    else
      var prev := DispatchAll(targets[..|targets| - 1], visits, sent);
      if prev.halt.Some? then prev
      else
        match DispatchOne(targets[|targets| - 1], visits, sent)
        case Ok(a) => Report(prev.actions + [a], None)
        case Err(h) => Report(prev.actions, Some(h))
  }

  /**
   * Every target before the stop gave its action, in order; a run that stops
   * stops at the first target that throws, and a run that does not stop has
   * one action per target.
   */
  lemma {:induction false} DispatchAllTrace(targets: seq<Option<string>>, visits: string -> bool, sent: SendEnds)
    ensures var r := DispatchAll(targets, visits, sent);
            && (forall i :: 0 <= i < |r.actions| ==> DispatchOne(targets[i], visits, sent) == Ok(r.actions[i]))
            && (r.halt.None? ==> |r.actions| == |targets|)
            && (r.halt.Some? ==> |r.actions| < |targets|
                                 && DispatchOne(targets[|r.actions|], visits, sent) == Err(r.halt.value))
  {
    if targets != [] {
      var init := targets[..|targets| - 1];
      DispatchAllTrace(init, visits, sent);
      var prev := DispatchAll(init, visits, sent);
      forall i | 0 <= i < |prev.actions| ensures targets[i] == init[i] {
      }
    }
  }

  /** Acting on two runs of targets is acting on the first, then, if it did not stop, on the second. */
  lemma {:induction false} DispatchAllAppend(xs: seq<Option<string>>, ys: seq<Option<string>>, visits: string -> bool, sent: SendEnds)
    ensures var a, b := DispatchAll(xs, visits, sent), DispatchAll(ys, visits, sent);
            DispatchAll(xs + ys, visits, sent) == if a.halt.Some? then a else Report(a.actions + b.actions, b.halt)
    decreases |ys|
  {
    if ys == [] {
      assert xs + ys == xs;
    } else {
      var init := ys[..|ys| - 1];
      DispatchAllAppend(xs, init, visits, sent);
      assert (xs + ys)[..|xs + ys| - 1] == xs + init;
      assert (xs + ys)[|xs + ys| - 1] == ys[|ys| - 1];
    }
  }

  /** The inner foreach over one group's targets. */
  method DispatchTargets(targets: seq<Option<string>>, visits: string -> bool, sends: Sends, ghost sent: SendEnds)
    returns (actions: seq<Action>, halt: Option<Halt>)
    requires forall text :: sent(text) == RetryResult(Handler(RetryOtherApiErrors), sends(text))
    ensures Report(actions, halt) == DispatchAll(targets, visits, sent)
  {
    actions := [];
    var j := 0;
    while j < |targets|
      invariant 0 <= j <= |targets|
      invariant DispatchAll(targets[..j], visits, sent) == Report(actions, None)
    {
      assert targets[..j + 1][..j] == targets[..j];
      var target := targets[j];
      var step: Result<Action, Halt>;
      if target.None? {
        step := Err(NullTarget);
      } else if Text.StartsWith(target.value, "mailto") {
        step := SendUnsubscribeEmail(target.value, sends, sent);
      } else {
        step := Ok(Visit(target.value, visits(target.value)));
      }
      assert step == DispatchOne(target, visits, sent);
      if step.Err? {
        DispatchAllAppend(targets[..j + 1], targets[j + 1..], visits, sent);
        assert targets[..j + 1] + targets[j + 1..] == targets;
        return actions, Some(step.error);
      }
      actions := actions + [step.value];
      j := j + 1;
    }
    assert targets[..j] == targets;
    halt := None;
  }

  // ---------------------------------------------------------------------------
  // The loop over the groups
  // ---------------------------------------------------------------------------

  /** The targets of a group: from its first message's List-Unsubscribe value; None where that throws. */
  function GroupTargets(g: Group): (r: Option<seq<Option<string>>>)
    ensures r.Some? <==> g.members != [] && HasDirective(g.members[0])
    ensures r.Some? ==> r.value == Targets(FindHeader(g.members[0].headers, UnsubscribeHeader).value.value)
  {
    if g.members == [] then None
    else
      match FindHeader(g.members[0].headers, UnsubscribeHeader)
      case None => None
      case Some(h) => Some(Targets(h.value))
  }

  /**
   * The outer foreach: each group's targets in group order, until something
   * throws. It takes at most one action per target, and it stops on a missing
   * List-Unsubscribe header only when some group's first message lacks one.
   */
  function DispatchGroups(groups: seq<Group>, visits: string -> bool, sent: SendEnds): (r: Report)
    ensures |r.actions| <= |AllTargets(groups)|
    ensures r.halt == Some(NoDirective) ==> exists i :: 0 <= i < |groups| && GroupTargets(groups[i]).None?
  {
    if groups == [] then Report([], None)
    else
      var prev := DispatchGroups(groups[..|groups| - 1], visits, sent);
      if prev.halt.Some? then prev
      else
        match GroupTargets(groups[|groups| - 1])
        case None => Report(prev.actions, Some(NoDirective))
        case Some(targets) =>
          var d := DispatchAll(targets, visits, sent);
          Report(prev.actions + d.actions, d.halt)
  }

  /** All targets of the groups, group after group. */
  function AllTargets(groups: seq<Group>): seq<Option<string>>
  {
    if groups == [] then []
    else
      var last := GroupTargets(groups[|groups| - 1]);
      AllTargets(groups[..|groups| - 1]) + (if last.Some? then last.value else [])
  }

  /**
   * When every group has targets, the loop over the groups is the loop over
   * all their targets in order: a failure in one group ends the whole run.
   */
  lemma {:induction false} DispatchGroupsFlat(groups: seq<Group>, visits: string -> bool, sent: SendEnds)
    requires forall i :: 0 <= i < |groups| ==> GroupTargets(groups[i]).Some?
    ensures DispatchGroups(groups, visits, sent) == DispatchAll(AllTargets(groups), visits, sent)
  {
    if groups != [] {
      var init := groups[..|groups| - 1];
      DispatchGroupsFlat(init, visits, sent);
      DispatchAllAppend(AllTargets(init), GroupTargets(groups[|groups| - 1]).value, visits, sent);
    }
  }

  /** The outer foreach of Main over the groups. */
  method ProcessGroups(groups: seq<Group>, visits: string -> bool, sends: Sends, ghost sent: SendEnds)
    returns (actions: seq<Action>, halt: Option<Halt>)
    requires forall text :: sent(text) == RetryResult(Handler(RetryOtherApiErrors), sends(text))
    ensures Report(actions, halt) == DispatchGroups(groups, visits, sent)
  {
    actions := [];
    var i := 0;
    while i < |groups|
      invariant 0 <= i <= |groups|
      invariant DispatchGroups(groups[..i], visits, sent) == Report(actions, None)
    {
      assert groups[..i + 1][..i] == groups[..i];
      var group := groups[i];
      var targets := GroupTargets(group);
      if targets.None? {
        StopsThere(groups, i + 1, visits, sent);
        return actions, Some(NoDirective);
      }
      var more, stop := DispatchTargets(targets.value, visits, sends, sent);
      actions := actions + more;
      if stop.Some? {
        StopsThere(groups, i + 1, visits, sent);
        return actions, stop;
      }
      i := i + 1;
    }
    assert groups[..i] == groups;
    halt := None;
  }

  /** Once the loop over a prefix of the groups stopped, the later groups do nothing. */
  lemma {:induction false} StopsThere(groups: seq<Group>, n: int, visits: string -> bool, sent: SendEnds)
    requires 0 <= n <= |groups|
    requires DispatchGroups(groups[..n], visits, sent).halt.Some?
    ensures DispatchGroups(groups, visits, sent) == DispatchGroups(groups[..n], visits, sent)
    decreases |groups|
  {
    if n < |groups| {
      var init := groups[..|groups| - 1];
      assert init[..n] == groups[..n];
      StopsThere(init, n, visits, sent);
    } else {
      assert groups[..n] == groups;
    }
  }

  // ---------------------------------------------------------------------------
  // Main
  // ---------------------------------------------------------------------------

  /**
   * The groups Main acts on: the messages with a List-Unsubscribe header,
   * grouped by sender. None when one of them has no sender, where the key
   * selector throws. The groups have distinct senders and together hold each
   * such message once.
   */
  function Plan(allMessages: seq<Message>): (r: Option<seq<Group>>)
    ensures var ms := ToUnsubscribe(allMessages);
            r.None? <==> exists i :: 0 <= i < |ms| && SenderKey(ms[i]).None?
    ensures r.Some? ==> && DistinctKeys(r.value)
                        && multiset(Seqs.Flatten(Members(r.value))) == multiset(ToUnsubscribe(allMessages))
  {
    match KeyAll(ToUnsubscribe(allMessages))
    case None => None
    case Some(keyed) =>
      GroupByPermutation(keyed);
      assert Messages(keyed) == ToUnsubscribe(allMessages);
      Some(GroupBy(keyed))
  }

  /**
   * Main after the Gmail service is built: look up the folder (`listing` is
   * the answer of the label listing), then act on the groups of the journal's
   * messages (`allMessages`, the records of allMessages.json, none when the
   * file is missing).
   */
  function Unsubscribe(listing: Outcome<Option<seq<Label>>>, allMessages: seq<Message>,
                       visits: string -> bool, sent: SendEnds): (r: Report)
    ensures r.actions != [] ==> (&& GetFolderId(listing, FolderName).Some?
                                 && GetFolderId(listing, FolderName).value != ""
                                 && Plan(allMessages).Some?)
  {
    var folderId := GetFolderId(listing, FolderName);
    if folderId.None? || folderId.value == "" then Report([], Some(FolderNotFound))
    else
      match Plan(allMessages)
      case None => Report([], Some(NoSender))
      case Some(groups) => DispatchGroups(groups, visits, sent)
  }

  /** Main, with the label listing, the journal, the visits and the Send attempts given. */
  method ProcessFolder(listing: Outcome<Option<seq<Label>>>, allMessages: seq<Message>, visits: string -> bool, sends: Sends)
    returns (actions: seq<Action>, halt: Option<Halt>)
    ensures Report(actions, halt) == Unsubscribe(listing, allMessages, visits, SendEndsOf(sends))
  {
    var folderId := GetFolderId(listing, FolderName);
    if folderId.None? || folderId.value == "" {
      return [], Some(FolderNotFound);
    }
    var toUnsubscribe := Where(allMessages, true);
    var keyed := KeyAll(toUnsubscribe);
    if keyed.None? {
      return [], Some(NoSender);
    }
    var groups := GroupBy(keyed.value);
    actions, halt := ProcessGroups(groups, visits, sends, SendEndsOf(sends));
  }

  /**
   * The groups Main plans follow GroupBy: one per sender, in the order the
   * senders first occur among the List-Unsubscribe messages, each holding
   * that sender's messages in journal order.
   */
  lemma PlanGroups(allMessages: seq<Message>)
    requires Plan(allMessages).Some?
    ensures var keyed := KeyAll(ToUnsubscribe(allMessages)).value;
            var plan := Plan(allMessages).value;
            && Keys(plan) == Distinct(KeysOf(keyed))
            && forall i :: 0 <= i < |plan| ==> plan[i].members == MembersWith(keyed, plan[i].key)
  {
    var keyed := KeyAll(ToUnsubscribe(allMessages)).value;
    GroupByKeys(keyed);
    GroupByMembers(keyed);
  }

  /** Every message of a planned group has that group's sender as its key. */
  lemma PlanSenders(allMessages: seq<Message>)
    requires Plan(allMessages).Some?
    ensures var plan := Plan(allMessages).value;
            forall i, m :: 0 <= i < |plan| && m in plan[i].members ==> SenderKey(m) == Some(plan[i].key)
  {
    var ms := ToUnsubscribe(allMessages);
    var keyed := KeyAll(ms).value;
    var plan := Plan(allMessages).value;
    PlanGroups(allMessages);
    forall i, m | 0 <= i < |plan| && m in plan[i].members ensures SenderKey(m) == Some(plan[i].key) {
      MembersWithKeyed(keyed, plan[i].key);
      var j :| 0 <= j < |keyed| && keyed[j] == Keyed(plan[i].key, m);
      assert keyed[j] == Keyed(SenderKey(ms[j]).value, ms[j]);
    }
  }

  /** Every group Main plans has a first message with a List-Unsubscribe header. */
  lemma PlanHasTargets(allMessages: seq<Message>)
    requires Plan(allMessages).Some?
    ensures forall i :: 0 <= i < |Plan(allMessages).value| ==> GroupTargets(Plan(allMessages).value[i]).Some?
  {
    var keyed := KeyAll(ToUnsubscribe(allMessages)).value;
    GroupByKeepsDirective(keyed);
  }

  /**
   * Main acts on the planned targets, in group order and then target order,
   * as DispatchAllTrace describes: it stops exactly at the first target that
   * throws, and a visit that fails never stops it. A missing folder or a
   * message without a sender stops it before any action, and a group's header
   * is never missing.
   */
  lemma UnsubscribeTrace(listing: Outcome<Option<seq<Label>>>, allMessages: seq<Message>,
                         visits: string -> bool, sent: SendEnds)
    ensures var r := Unsubscribe(listing, allMessages, visits, sent);
            var folderId := GetFolderId(listing, FolderName);
            && (folderId.None? || folderId.value == "" ==> r == Report([], Some(FolderNotFound)))
            && (folderId.Some? && folderId.value != "" && Plan(allMessages).None? ==> r == Report([], Some(NoSender)))
            && (folderId.Some? && folderId.value != "" && Plan(allMessages).Some? ==>
                  r == DispatchAll(AllTargets(Plan(allMessages).value), visits, sent))
            && r.halt != Some(NoDirective)
  {
    var folderId := GetFolderId(listing, FolderName);
    if folderId.Some? && folderId.value != "" && Plan(allMessages).Some? {
      var groups := Plan(allMessages).value;
      PlanHasTargets(allMessages);
      DispatchGroupsFlat(groups, visits, sent);
    }
  }

  /**
   * FetchAllMessages(folderId) of Program.cs: the paging loop of
   * FetchAllMessagesInFolder with the label filter always set and
   * Program.Retry around each Messages.Get.
   */
  method FetchAllMessages(folderId: string, answers: seq<Outcome<Page>>, gets: Gets, journal: seq<Message>)
    returns (journal': seq<Message>, result: seq<Message>, end: FetchEnd, requests: seq<ListRequest>)
    ensures Run(requests, result, end) == Paging(Some(folderId), "", answers, RetryOutcomes(Handler(RetryOtherApiErrors), gets))
    ensures journal' == journal + result
  {
    journal', result, end, requests :=
      FetchAllWith(Some(folderId), answers, Handler(RetryOtherApiErrors), gets, RetryOutcomes(Handler(RetryOtherApiErrors), gets), journal);
  }
}
