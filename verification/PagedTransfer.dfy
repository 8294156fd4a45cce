/** The paged docker-log transfer: a validating client against any server, and against a spool. */
module PagedTransfer {
  import opened Options
  import opened LineCounting
  import opened Base64

  const DOCKER_LOG_PAGE_MAX_BYTES := 1_000_000

  /** A JSON value as Python sees it; a missing field reads as null. */
  datatype Json = JNull | JBool(b: bool) | JInt(i: int) | JReal(r: real) | JStr(s: string) | JOther

  datatype PagePayload = PagePayload(
    logsBase64: Json, offset: Json, returnedBytes: Json, byteLimit: Json,
    truncated: Json, nextOffset: Json, transferId: Json)

  /** What one request comes back with. */
  datatype Reply = GatewayError(code: string) | Answer(payload: PagePayload)

  /** A normalized time filter: unix seconds, or a point in time. */
  datatype TimeBound = Seconds(seconds: int) | Instant(at: int)

  /** What a new transfer asks Docker for; the upper time bound is always given. */
  datatype Query = Query(container: string, stream: Option<string>, since: Option<TimeBound>, until: TimeBound)

  /** A new transfer carries the query, a continuation only its cursor. */
  datatype Request =
    | NewTransfer(query: Query, offset: nat, maxBytes: nat)
    | NextPage(transferId: string, offset: nat, maxBytes: nat)

  /** Python's `==` between a JSON value and an integer. */
  predicate EqualsInt(j: Json, n: int)
  {
    match j
    case JInt(i) => i == n
    case JBool(b) => n == if b then 1 else 0
    case JReal(r) => r == n as real
    case _ => false
  }

  predicate IsIntInstance(j: Json)
  {
    j.JInt? || j.JBool?
  }

  datatype Page = Page(content: seq<byte>, byteLimit: int, truncated: bool, nextOffset: Json, transferId: Json)

  datatype PageError = InvalidBase64 | InvalidPage | NonProgressing | InvalidFinalPage

  datatype Checked = Valid(page: Page) | Invalid(error: PageError)

  function ValidatedPage(p: PagePayload, expectedOffset: nat): Checked
  {
    if p.logsBase64.JStr? && Decode(p.logsBase64.s).None? then Invalid(InvalidBase64)
    else if !p.logsBase64.JStr? || !EqualsInt(p.offset, expectedOffset)
         || p.returnedBytes != JInt(|Decode(p.logsBase64.s).value|)
         || !p.byteLimit.JInt? || p.byteLimit.i < 1 || !p.truncated.JBool?
    then Invalid(InvalidPage)
    else
      var content := Decode(p.logsBase64.s).value;
      if p.truncated.b && (!EqualsInt(p.nextOffset, expectedOffset + |content|) || content == []
                           || !p.transferId.JStr? || p.transferId.s == "")
      then Invalid(NonProgressing)
      else if !p.truncated.b && (p.nextOffset != JNull || p.transferId != JNull)
      then Invalid(InvalidFinalPage)
      else Valid(Page(content, p.byteLimit.i, p.truncated.b, p.nextOffset, p.transferId))
  }

  /** What the page contract asks of a payload at an offset, as one conjunction. */
  ghost predicate KeepsContract(p: PagePayload, offset: nat, content: seq<byte>)
  {
    && p.logsBase64.JStr? && Decode(p.logsBase64.s) == Some(content)
    && EqualsInt(p.offset, offset) && p.returnedBytes == JInt(|content|)
    && p.byteLimit.JInt? && 1 <= p.byteLimit.i
    && (p.truncated == JBool(true) || p.truncated == JBool(false))
    && (p.truncated == JBool(true) ==>
          EqualsInt(p.nextOffset, offset + |content|) && content != [] && p.transferId.JStr? && p.transferId.s != "")
    && (p.truncated == JBool(false) ==> p.nextOffset == JNull && p.transferId == JNull)
  }

  /** Validation accepts exactly the payloads that keep the contract, with the bytes they carry. */
  lemma ValidExactlyByContract(p: PagePayload, offset: nat)
    ensures ValidatedPage(p, offset).Valid? <==> exists content :: KeepsContract(p, offset, content)
    ensures forall content :: KeepsContract(p, offset, content) ==>
              ValidatedPage(p, offset) == Valid(Page(content, p.byteLimit.i, p.truncated.b, p.nextOffset, p.transferId))
  {
    hide Decode, EqualsInt;
    if ValidatedPage(p, offset).Valid? {
      assert KeepsContract(p, offset, ValidatedPage(p, offset).page.content);
    }
  }

  /** Numbers compare across their JSON types: a real or a boolean offset passes where the integer would. */
  lemma OffsetTypeIsOpen(p: PagePayload, offset: nat)
    ensures ValidatedPage(p.(offset := JReal(offset as real)), offset)
         == ValidatedPage(p.(offset := JInt(offset)), offset)
    ensures ValidatedPage(p.(offset := JBool(true)), offset).Valid? <==>
              offset == 1 && ValidatedPage(p.(offset := JInt(1)), 1).Valid?
    ensures ValidatedPage(p.(offset := JBool(false)), offset).Valid? <==>
              offset == 0 && ValidatedPage(p.(offset := JInt(0)), 0).Valid?
  {
    hide Decode;
  }

  /** Undecodable bytes are named first, then fields that contradict them; what is wrong with the next page is
      only looked at in a page that announces one, and stray fields only in a last page. */
  lemma ErrorNamesViolation(p: PagePayload, offset: nat)
    requires ValidatedPage(p, offset).Invalid?
    ensures var e := ValidatedPage(p, offset).error;
            && (e.InvalidBase64? <==> p.logsBase64.JStr? && Decode(p.logsBase64.s) == None)
            && (e.InvalidPage? ==>
                  forall content :: p.logsBase64.JStr? && Decode(p.logsBase64.s) == Some(content) ==>
                    !EqualsInt(p.offset, offset) || p.returnedBytes != JInt(|content|) || !p.byteLimit.JInt?
                    || p.byteLimit.i <= 0 || (p.truncated != JBool(true) && p.truncated != JBool(false)))
            && (e.NonProgressing? ==> p.truncated == JBool(true))
            && (e.InvalidFinalPage? ==> p.truncated == JBool(false))
  {
    hide Decode, EqualsInt;
  }

  datatype Failure = Timeout | EngineUnavailable | SourceError

  datatype Status =
    | Running
    | Finished(last: Page)
    | Unavailable(failure: Failure)
    | AssertionFailed

  function FailureFor(code: string): Failure
  {
    if code == "docker_log_timeout" then Timeout
    else if code == "docker_engine_unavailable" then EngineUnavailable
    else SourceError
  }

  /** The client between two replies: what it asks next and what it has written. */
  datatype Client = Client(
    status: Status, transferId: Option<string>, offset: nat, written: seq<byte>, pages: seq<seq<byte>>)

  const START := Client(Running, None, 0, [], [])

  function RequestOf(q: Query, c: Client): Request
  {
    match c.transferId
    case None => NewTransfer(q, c.offset, DOCKER_LOG_PAGE_MAX_BYTES)
    case Some(id) => NextPage(id, c.offset, DOCKER_LOG_PAGE_MAX_BYTES)
  }

  function Receive(c: Client, reply: Reply): Client
  {
    if !c.status.Running? then c
    else match reply
      case GatewayError(code) => c.(status := Unavailable(FailureFor(code)))
      case Answer(payload) =>
        match ValidatedPage(payload, c.offset)
        case Invalid(_) => c.(status := Unavailable(SourceError))
        case Valid(page) =>
          var wrote := c.(written := c.written + page.content, pages := c.pages + [page.content]);
          if !page.truncated then wrote.(status := Finished(page))
          else if !IsIntInstance(page.nextOffset) then wrote.(status := AssertionFailed)
          else wrote.(transferId := Some(page.transferId.s), offset := c.offset + |page.content|)
  }

  function RunClient(replies: seq<Reply>): Client
  {
    if replies == [] then START else Receive(RunClient(replies[..|replies| - 1]), replies[|replies| - 1])
  }

  datatype Transfer = Transfer(
    pageCount: nat, returnedBytes: nat, byteLimit: int, truncated: bool, nextOffset: Json, lineCount: nat)

  datatype Outcome =
    | Collected(transfer: Transfer)
    | SourceUnavailable(failure: Failure)
    | Raised
    | Waiting

  function OutcomeOf(c: Client): Outcome
  {
    match c.status
    case Running => Waiting
    case Unavailable(f) => SourceUnavailable(f)
    case AssertionFailed => Raised
    case Finished(last) =>
      Collected(Transfer(|c.pages|, |c.written|, last.byteLimit, last.truncated, last.nextOffset, LineCount(c.written)))
  }

  lemma {:induction false} RunStops(replies: seq<Reply>, n: nat)
    requires n <= |replies| && !RunClient(replies[..n]).status.Running?
    ensures RunClient(replies) == RunClient(replies[..n])
    decreases |replies|
  {
    if n == |replies| {
      assert replies[..n] == replies;
    } else {
      var init := replies[..|replies| - 1];
      assert init[..n] == replies[..n];
      RunStops(init, n);
    }
  }

  /** What the container lookup comes back with. */
  datatype Lookup = Found(container: string) | NotRunning | LookupFails(code: string)

  function LookupFailure(l: Lookup): Failure
    requires !l.Found?
  {
    if l.LookupFails? && l.code == "docker_engine_unavailable" then EngineUnavailable else SourceError
  }

  /** A missing upper bound is frozen once, so that a growing log cannot shift between pages. The
      number 0 counts as missing. */
  function FrozenUntil(until: Option<TimeBound>, now: int): TimeBound
  {
    if until.None? || until.value == Seconds(0) then Instant(now) else until.value
  }

  /** A given upper bound is used unless it is the number 0, however late it is asked for. */
  lemma GivenBoundIsUsed(until: TimeBound, now: int)
    ensures FrozenUntil(Some(until), now) == until <==> until != Seconds(0)
  {
  }

  method CollectDockerSource(lookup: Lookup, stream: Option<string>, since: Option<TimeBound>,
                             until: Option<TimeBound>, now: int, replies: seq<Reply>)
    returns (outcome: Outcome, output: seq<byte>, requests: seq<Request>)
    ensures !lookup.Found? ==> outcome == SourceUnavailable(LookupFailure(lookup)) && output == [] && requests == []
    ensures !lookup.Found? ==>
              (outcome == SourceUnavailable(EngineUnavailable) <==> lookup == LookupFails("docker_engine_unavailable"))
              && outcome != SourceUnavailable(Timeout)
    ensures lookup.Found? ==>
              outcome == OutcomeOf(RunClient(replies)) && output == RunClient(replies).written
              && Explains(replies, outcome, output)
              && Asks(Query(lookup.container, stream, since, FrozenUntil(until, now)), replies, requests)
  {
    if !lookup.Found? {
      return SourceUnavailable(LookupFailure(lookup)), [], [];
    }
    var query := Query(lookup.container, stream, since, FrozenUntil(until, now));
    hide Explains, Asks, RunClient;
    outcome, output, requests := StreamDockerLogPages(query, replies);
  }

  /** The requests are those of the running client, in order, and none after it stops. */
  ghost predicate Asks(q: Query, replies: seq<Reply>, requests: seq<Request>)
  {
    && (forall i :: 0 <= i < |requests| ==> i <= |replies| && requests[i] == RequestOf(q, RunClient(replies[..i])))
    && (forall i :: 0 <= i <= |replies| ==> (i < |requests| <==> RunClient(replies[..i]).status.Running?))
  }

  method StreamDockerLogPages(query: Query, replies: seq<Reply>)
    returns (outcome: Outcome, output: seq<byte>, requests: seq<Request>)
    ensures outcome == OutcomeOf(RunClient(replies)) && output == RunClient(replies).written
    ensures Explains(replies, outcome, output)
    ensures Asks(query, replies, requests)
  {
    hide Explains, Asks, RunClient, OutcomeOf;
    outcome, output, requests := ReadPages(query, replies);
    OutcomeIsExplained(replies);
  }

  /** The page loop fused with its consumer, for any script of replies. */
  method ReadPages(query: Query, replies: seq<Reply>)
    returns (outcome: Outcome, output: seq<byte>, requests: seq<Request>)
    ensures outcome == OutcomeOf(RunClient(replies)) && output == RunClient(replies).written
    ensures Asks(query, replies, requests)
  {
    hide RunClient, ValidatedPage, LineCount;
    var counters, pageCount := NO_BYTES, 0;
    var offset: nat := 0;
    var transferId: Option<string> := None;
    output, requests := [], [];
    var n := 0;
    ghost var client := START;
    RunStart(replies);
    while true
      invariant n <= |replies| && |requests| == n
      invariant client == RunClient(replies[..n])
      invariant client.status.Running? && client.offset == offset && client.transferId == transferId
      invariant client.written == output && |client.pages| == pageCount
      invariant counters.Describe(output)
      invariant forall i :: 0 <= i < n ==>
                  RunClient(replies[..i]).status.Running? && requests[i] == RequestOf(query, RunClient(replies[..i]))
      decreases |replies| - n
    {
      requests := requests + [match transferId
                              case None => NewTransfer(query, offset, DOCKER_LOG_PAGE_MAX_BYTES)
                              case Some(id) => NextPage(id, offset, DOCKER_LOG_PAGE_MAX_BYTES)];
      if n == |replies| {
        assert replies[..n] == replies;
        return Waiting, output, requests;
      }
      var reply := replies[n];
      RunStep(replies, n);
      client := Receive(client, reply);
      n := n + 1;
      if !client.status.Running? { StoppedAt(replies, n); }
      if reply.GatewayError? {
        return SourceUnavailable(FailureFor(reply.code)), output, requests;
      }
      var checked := ValidatedPage(reply.payload, offset);
      if checked.Invalid? {
        return SourceUnavailable(SourceError), output, requests;
      }
      var page := checked.page;
      AddDescribes(counters, output, page.content);
      output := output + page.content;
      counters := counters.Add(page.content);
      pageCount := pageCount + 1;
      if !page.truncated {
        CountersCountLines(counters, output);
        outcome := Collected(Transfer(pageCount, counters.byteCount, page.byteLimit, page.truncated,
                                      page.nextOffset, counters.Lines()));
        return;
      }
      if !IsIntInstance(page.nextOffset) {
        return Raised, output, requests;
      }
      ValidTruncatedPage(reply.payload, offset);
      transferId := Some(page.transferId.s);
      offset := offset + |page.content|;
    }
  }

  lemma RunStart(replies: seq<Reply>)
    ensures RunClient(replies[..0]) == START
  {
  }

  lemma RunStep(replies: seq<Reply>, n: nat)
    requires n < |replies|
    ensures RunClient(replies[..n + 1]) == Receive(RunClient(replies[..n]), replies[n])
  {
    assert replies[..n + 1][..n] == replies[..n];
  }

  lemma ValidTruncatedPage(p: PagePayload, offset: nat)
    requires ValidatedPage(p, offset).Valid? && ValidatedPage(p, offset).page.truncated
    ensures ValidatedPage(p, offset).page.transferId.JStr? && ValidatedPage(p, offset).page.content != []
    ensures EqualsInt(ValidatedPage(p, offset).page.nextOffset, offset + |ValidatedPage(p, offset).page.content|)
  {
  }

  lemma StoppedAt(replies: seq<Reply>, n: nat)
    requires n <= |replies| && !RunClient(replies[..n]).status.Running?
    ensures forall i :: n <= i <= |replies| ==> RunClient(replies[..i]) == RunClient(replies[..n])
    ensures RunClient(replies) == RunClient(replies[..n])
  {
    hide Receive, RunClient;
    forall i | n <= i <= |replies| ensures RunClient(replies[..i]) == RunClient(replies[..n]) {
      assert replies[..i][..n] == replies[..n];
      RunStops(replies[..i], n);
    }
    assert replies[..|replies|] == replies;
  }

  // ----- Against any server -----

  /** The bytes a reply carries, whether or not the client accepts them. */
  function Carried(reply: Reply): seq<byte>
  {
    if reply.Answer? && reply.payload.logsBase64.JStr? && Decode(reply.payload.logsBase64.s).Some?
    then Decode(reply.payload.logsBase64.s).value else []
  }

  function CarriedBytes(replies: seq<Reply>): seq<byte>
  {
    if replies == [] then [] else CarriedBytes(replies[..|replies| - 1]) + Carried(replies[|replies| - 1])
  }

  function CheckAt(replies: seq<Reply>, i: nat): Checked
    requires i < |replies| && replies[i].Answer?
  {
    ValidatedPage(replies[i].payload, |CarriedBytes(replies[..i])|)
  }

  /** Reply i is a valid page at exactly the offset of all bytes before it, and announces more. */
  predicate Continues(replies: seq<Reply>, i: nat)
    requires i < |replies|
  {
    && replies[i].Answer? && CheckAt(replies, i).Valid?
    && CheckAt(replies, i).page.truncated && IsIntInstance(CheckAt(replies, i).page.nextOffset)
  }

  /** Reply i is a valid page at exactly that offset, and the last one. */
  predicate Ends(replies: seq<Reply>, i: nat)
    requires i < |replies|
  {
    replies[i].Answer? && CheckAt(replies, i).Valid? && !CheckAt(replies, i).page.truncated
  }

  lemma CarriedStep(replies: seq<Reply>, n: nat)
    requires n < |replies|
    ensures CarriedBytes(replies[..n + 1]) == CarriedBytes(replies[..n]) + Carried(replies[n])
  {
    assert replies[..n + 1][..n] == replies[..n];
  }

  lemma ValidPageCarries(p: PagePayload, offset: nat)
    requires ValidatedPage(p, offset).Valid?
    ensures ValidatedPage(p, offset).page.content == Carried(Answer(p))
    ensures EqualsInt(p.offset, offset)
    ensures !ValidatedPage(p, offset).page.truncated ==> ValidatedPage(p, offset).page.nextOffset == JNull
  {
  }

  lemma ReceiveStep(c: Client, reply: Reply)
    requires c.status.Running?
    ensures var checked := if reply.Answer? then ValidatedPage(reply.payload, c.offset) else Invalid(InvalidPage);
            var next := Receive(c, reply);
            && (next.status.Running? <==>
                  checked.Valid? && checked.page.truncated && IsIntInstance(checked.page.nextOffset))
            && (next.status.Finished? <==> checked.Valid? && !checked.page.truncated)
            && (checked.Valid? ==>
                  next.written == c.written + Carried(reply) && |next.pages| == |c.pages| + 1)
            && (next.status.Running? ==> next.offset == c.offset + |Carried(reply)|)
            && (next.status.Finished? ==> next.status.last.nextOffset == JNull && !next.status.last.truncated)
  {
    hide ValidatedPage, Carried;
    if reply.Answer? && ValidatedPage(reply.payload, c.offset).Valid? {
      ValidPageCarries(reply.payload, c.offset);
    }
  }

  /** A client is still running exactly while every page so far continued the one before it, and
      its offset is then the number of bytes written, which are the carried bytes, in order. */
  lemma {:induction false} RunningMeansContinuous(replies: seq<Reply>, n: nat)
    requires n <= |replies|
    ensures RunClient(replies[..n]).status.Running? <==> forall i :: 0 <= i < n ==> Continues(replies, i)
    ensures RunClient(replies[..n]).status.Running? ==>
              var c := RunClient(replies[..n]);
              c.written == CarriedBytes(replies[..n]) && c.offset == |c.written| && |c.pages| == n
  {
    hide ValidatedPage, Carried, RunClient, CarriedBytes, Receive;
    if n == 0 {
      RunStart(replies);
      NothingCarried(replies);
    } else {
      RunningMeansContinuous(replies, n - 1);
      RunStep(replies, n - 1);
      CarriedStep(replies, n - 1);
      var before := RunClient(replies[..n - 1]);
      if before.status.Running? {
        ReceiveStep(before, replies[n - 1]);
      } else {
        StoppedStays(before, replies[n - 1]);
      }
      assert (forall i :: 0 <= i < n ==> Continues(replies, i))
        <==> (forall i :: 0 <= i < n - 1 ==> Continues(replies, i)) && Continues(replies, n - 1);
    }
  }

  lemma NothingCarried(replies: seq<Reply>)
    ensures CarriedBytes(replies[..0]) == []
  {
  }

  lemma StoppedStays(c: Client, reply: Reply)
    requires !c.status.Running?
    ensures Receive(c, reply) == c
  {
  }

  lemma {:induction false} StoppingReply(replies: seq<Reply>, n: nat) returns (m: nat)
    requires n <= |replies| && !RunClient(replies[..n]).status.Running?
    ensures m < n && RunClient(replies[..m]).status.Running?
    ensures RunClient(replies[..n]) == RunClient(replies[..m + 1])
  {
    hide Receive;
    assert n != 0;
    RunStep(replies, n - 1);
    if RunClient(replies[..n - 1]).status.Running? {
      m := n - 1;
    } else {
      StoppedStays(RunClient(replies[..n - 1]), replies[n - 1]);
      m := StoppingReply(replies, n - 1);
    }
  }

  ghost predicate AcceptedAt(replies: seq<Reply>, n: nat)
  {
    n < |replies| && Ends(replies, n) && forall i :: 0 <= i < n ==> Continues(replies, i)
  }

  /** The collection succeeds exactly on a gap-free chain of pages closed by a final one, and
      then the file is precisely what the chain carried. */
  lemma AcceptedExactlyOnChains(replies: seq<Reply>)
    ensures RunClient(replies).status.Finished? <==> exists n: nat :: AcceptedAt(replies, n)
    ensures forall n: nat :: AcceptedAt(replies, n) ==>
              var c := RunClient(replies);
              && c.status.Finished? && c.written == CarriedBytes(replies[..n + 1]) && |c.pages| == n + 1
              && c.status.last.nextOffset == JNull && !c.status.last.truncated
  {
    hide ValidatedPage, Carried, RunClient, CarriedBytes, Receive;
    assert replies[..|replies|] == replies;
    if RunClient(replies).status.Finished? {
      var m := StoppingReply(replies, |replies|);
      RunningMeansContinuous(replies, m);
      RunStep(replies, m);
      ReceiveStep(RunClient(replies[..m]), replies[m]);
      assert AcceptedAt(replies, m);
    }
    forall n: nat | AcceptedAt(replies, n)
      ensures var c := RunClient(replies);
              && c.status.Finished? && c.written == CarriedBytes(replies[..n + 1]) && |c.pages| == n + 1
              && c.status.last.nextOffset == JNull && !c.status.last.truncated
    {
      RunningMeansContinuous(replies, n);
      RunStep(replies, n);
      CarriedStep(replies, n);
      ReceiveStep(RunClient(replies[..n]), replies[n]);
      StoppedAt(replies, n + 1);
    }
  }

  // ----- How a transfer stops -----

  /** The first reply that is no continuation. */
  ghost predicate StopsAt(replies: seq<Reply>, n: nat)
  {
    n < |replies| && !Continues(replies, n) && forall i :: 0 <= i < n ==> Continues(replies, i)
  }

  /** Reply n is an error or breaks the page contract. */
  predicate Rejects(replies: seq<Reply>, n: nat)
    requires n < |replies|
  {
    replies[n].GatewayError? || CheckAt(replies, n).Invalid?
  }

  /** Reply n is a valid page that announces more at a JSON real. */
  predicate AnnouncesReal(replies: seq<Reply>, n: nat)
    requires n < |replies|
  {
    && replies[n].Answer? && CheckAt(replies, n).Valid?
    && CheckAt(replies, n).page.truncated && CheckAt(replies, n).page.nextOffset.JReal?
  }

  ghost predicate RaisesAt(replies: seq<Reply>, n: nat)
  {
    n < |replies| && AnnouncesReal(replies, n) && forall i :: 0 <= i < n ==> Continues(replies, i)
  }

  ghost predicate RejectedAt(replies: seq<Reply>, n: nat)
  {
    n < |replies| && Rejects(replies, n) && forall i :: 0 <= i < n ==> Continues(replies, i)
  }

  /** A valid page that announces more has its offset as an integer, a boolean or a real. */
  lemma AnnouncedOffset(replies: seq<Reply>, n: nat)
    requires n < |replies|
    ensures AnnouncesReal(replies, n) <==> !Continues(replies, n) && !Ends(replies, n) && !Rejects(replies, n)
  {
    if replies[n].Answer? && CheckAt(replies, n).Valid? && CheckAt(replies, n).page.truncated {
      ValidTruncatedPage(replies[n].payload, |CarriedBytes(replies[..n])|);
    }
    hide ValidatedPage;
  }

  lemma StatusAtStop(replies: seq<Reply>, n: nat)
    requires StopsAt(replies, n)
    ensures RunClient(replies).status.Finished? <==> Ends(replies, n)
    ensures RunClient(replies).status.AssertionFailed? <==> AnnouncesReal(replies, n)
    ensures RunClient(replies).status.Unavailable? <==> Rejects(replies, n)
  {
    hide ValidatedPage, RunClient, CarriedBytes, Carried;
    RunningMeansContinuous(replies, n);
    RunningMeansContinuous(replies, n + 1);
    RunStep(replies, n);
    StoppedAt(replies, n + 1);
    AnnouncedOffset(replies, n);
  }

  lemma StoppedMeansStopsAt(replies: seq<Reply>) returns (n: nat)
    requires !RunClient(replies).status.Running?
    ensures StopsAt(replies, n)
  {
    hide ValidatedPage, RunClient, CarriedBytes, Carried, Receive;
    assert replies[..|replies|] == replies;
    n := StoppingReply(replies, |replies|);
    RunningMeansContinuous(replies, n);
    RunningMeansContinuous(replies, n + 1);
  }

  /** The transfer raises exactly when its chain of pages reaches one whose next offset is a JSON
      real, and reports an unavailable source exactly when it reaches an error or a broken page. */
  lemma EveryStopIsExplained(replies: seq<Reply>)
    ensures RunClient(replies).status.AssertionFailed? <==> exists n: nat :: RaisesAt(replies, n)
    ensures RunClient(replies).status.Unavailable? <==> exists n: nat :: RejectedAt(replies, n)
  {
    hide ValidatedPage, RunClient, Continues, Ends, AnnouncesReal, Rejects;
    if !RunClient(replies).status.Running? {
      var n := StoppedMeansStopsAt(replies);
      StatusAtStop(replies, n);
      assert AnnouncesReal(replies, n) ==> RaisesAt(replies, n);
      assert Rejects(replies, n) ==> RejectedAt(replies, n);
    }
    forall n: nat | RaisesAt(replies, n) ensures RunClient(replies).status.AssertionFailed? {
      AnnouncedOffset(replies, n);
      StatusAtStop(replies, n);
    }
    forall n: nat | RejectedAt(replies, n) ensures RunClient(replies).status.Unavailable? {
      RejectedStops(replies, n);
      StatusAtStop(replies, n);
    }
  }

  lemma RejectedStops(replies: seq<Reply>, n: nat)
    requires RejectedAt(replies, n)
    ensures StopsAt(replies, n)
  {
  }

  /** The collected result, read off the replies up to the final page n. */
  ghost predicate ReportsChain(replies: seq<Reply>, n: nat, transfer: Transfer, output: seq<byte>)
    requires n < |replies|
  {
    && output == CarriedBytes(replies[..n + 1])
    && transfer.pageCount == n + 1 && transfer.returnedBytes == |output| && transfer.lineCount == |Lines(output)|
    && replies[n].Answer? && JInt(transfer.byteLimit) == replies[n].payload.byteLimit
    && !transfer.truncated && transfer.nextOffset == JNull
  }

  /** What became of a transfer, read off its replies. */
  ghost predicate Explains(replies: seq<Reply>, outcome: Outcome, output: seq<byte>)
  {
    && (outcome.Collected? <==> exists n: nat :: AcceptedAt(replies, n))
    && (outcome.Raised? <==> exists n: nat :: RaisesAt(replies, n))
    && (outcome.SourceUnavailable? <==> exists n: nat :: RejectedAt(replies, n))
    && (outcome.Waiting? <==> forall i :: 0 <= i < |replies| ==> Continues(replies, i))
    && (forall n: nat :: AcceptedAt(replies, n) && outcome.Collected? ==>
          ReportsChain(replies, n, outcome.transfer, output))
    && (forall n: nat :: RejectedAt(replies, n) && outcome.SourceUnavailable? ==>
          && (outcome.failure == Timeout <==> replies[n] == GatewayError("docker_log_timeout"))
          && (outcome.failure == EngineUnavailable <==> replies[n] == GatewayError("docker_engine_unavailable")))
  }

  lemma AcceptedReportsChain(replies: seq<Reply>, n: nat)
    requires AcceptedAt(replies, n)
    ensures OutcomeOf(RunClient(replies)).Collected?
    ensures ReportsChain(replies, n, OutcomeOf(RunClient(replies)).transfer, RunClient(replies).written)
  {
    AcceptedExactlyOnChains(replies);
    LineCountIsLines(RunClient(replies).written);
    LastPageIsReply(replies, n);
    hide RunClient, CarriedBytes, Lines, LineCount, AcceptedAt;
  }

  /** The page a finished client ended with is the one that reply n carries. */
  lemma LastPageIsReply(replies: seq<Reply>, n: nat)
    requires AcceptedAt(replies, n)
    ensures replies[n].Answer? && RunClient(replies).status.Finished?
    ensures JInt(RunClient(replies).status.last.byteLimit) == replies[n].payload.byteLimit
  {
    AcceptedExactlyOnChains(replies);
    hide RunClient, CarriedBytes, Carried;
    RunningMeansContinuous(replies, n);
    RunStep(replies, n);
    StoppedAt(replies, n + 1);
  }

  lemma RejectionNamesFailure(replies: seq<Reply>, n: nat)
    requires RejectedAt(replies, n)
    ensures RunClient(replies).status.Unavailable?
    ensures RunClient(replies).status.failure == Timeout <==> replies[n] == GatewayError("docker_log_timeout")
    ensures RunClient(replies).status.failure == EngineUnavailable
       <==> replies[n] == GatewayError("docker_engine_unavailable")
  {
    RejectedStops(replies, n);
    StatusAtStop(replies, n);
    hide ValidatedPage, RunClient, CarriedBytes, Carried;
    RunningMeansContinuous(replies, n);
    RunStep(replies, n);
    StoppedAt(replies, n + 1);
  }

  lemma OutcomeIsExplained(replies: seq<Reply>)
    ensures Explains(replies, OutcomeOf(RunClient(replies)), RunClient(replies).written)
  {
    hide ValidatedPage, RunClient, CarriedBytes, AcceptedAt, RaisesAt, RejectedAt, Continues, ReportsChain, LineCount;
    AcceptedExactlyOnChains(replies);
    EveryStopIsExplained(replies);
    assert replies[..|replies|] == replies;
    RunningMeansContinuous(replies, |replies|);
    forall n: nat | AcceptedAt(replies, n)
      ensures n < |replies| && OutcomeOf(RunClient(replies)).Collected?
      ensures ReportsChain(replies, n, OutcomeOf(RunClient(replies)).transfer, RunClient(replies).written)
    {
      AcceptedIsReply(replies, n);
      AcceptedReportsChain(replies, n);
    }
    forall n: nat | RejectedAt(replies, n)
      ensures n < |replies| && RunClient(replies).status.Unavailable?
      ensures RunClient(replies).status.failure == Timeout <==> replies[n] == GatewayError("docker_log_timeout")
      ensures RunClient(replies).status.failure == EngineUnavailable
         <==> replies[n] == GatewayError("docker_engine_unavailable")
    {
      RejectedIsReply(replies, n);
      RejectionNamesFailure(replies, n);
    }
  }

  lemma AcceptedIsReply(replies: seq<Reply>, n: nat)
    requires AcceptedAt(replies, n)
    ensures n < |replies|
  {
  }

  lemma RejectedIsReply(replies: seq<Reply>, n: nat)
    requires RejectedAt(replies, n)
    ensures n < |replies|
  {
  }

  /** The i-th request, read off the replies before it: it asks for the bytes after all carried ones, a
      million at most; the first carries the query and every later one the id of the page before it. */
  lemma RequestsFollowReplies(q: Query, replies: seq<Reply>, requests: seq<Request>, i: nat)
    requires Asks(q, replies, requests) && i < |requests|
    ensures i <= |replies| && requests[i].offset == |CarriedBytes(replies[..i])| && requests[i].maxBytes == 1_000_000
    ensures i == 0 ==> requests[i].NewTransfer? && requests[i].query == q
    ensures 0 < i ==> replies[i - 1].Answer? && requests[i].NextPage?
                      && replies[i - 1].payload.transferId == JStr(requests[i].transferId)
  {
    assert RunClient(replies[..i]).status.Running?;
    hide ValidatedPage, RunClient, CarriedBytes, Carried;
    RunningMeansContinuous(replies, i);
    OnlyTheFirstRequestQueries(replies, i);
    if 0 < i {
      IdIsOfLastPage(replies, i);
    }
  }

  lemma IdIsOfLastPage(replies: seq<Reply>, i: nat)
    requires 0 < i <= |replies| && RunClient(replies[..i]).status.Running?
    ensures replies[i - 1].Answer? && RunClient(replies[..i]).transferId.Some?
    ensures replies[i - 1].payload.transferId == JStr(RunClient(replies[..i]).transferId.value)
  {
    hide RunClient, CarriedBytes, Carried;
    RunStep(replies, i - 1);
  }

  /** An otherwise honest first page whose next offset is written as a real. */
  function RealOffsetPage(content: seq<byte>, limit: int, transferId: string): PagePayload
  {
    PagePayload(JStr(Encode(content)), JInt(0), JInt(|content|), JInt(limit), JBool(true),
                JReal(|content| as real), JStr(transferId))
  }

  /** Any such page passes validation and then raises. */
  lemma RealOffsetRaises(content: seq<byte>, limit: int, transferId: string)
    requires content != [] && 1 <= limit && transferId != ""
    ensures var page := RealOffsetPage(content, limit, transferId);
            ValidatedPage(page, 0).Valid? && RunClient([Answer(page)]).status.AssertionFailed?
  {
    hide Encode, Decode;
    DecodeEncode(content);
    var replies := [Answer(RealOffsetPage(content, limit, transferId))];
    assert replies[..0] == [];
    assert RaisesAt(replies, 0);
    hide ValidatedPage, RunClient;
    EveryStopIsExplained(replies);
  }

  /** The query, with its frozen bound, is asked once: every later request only names its cursor. */
  lemma OnlyTheFirstRequestQueries(replies: seq<Reply>, n: nat)
    requires n <= |replies| && RunClient(replies[..n]).status.Running?
    ensures RunClient(replies[..n]).transferId.None? <==> n == 0
  {
    hide ValidatedPage, RunClient;
    RunStart(replies);
    if n != 0 {
      RunStep(replies, n - 1);
    }
  }
}
