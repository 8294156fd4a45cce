/** The paged transfer against a server that pages one immutable spool. */
module SpoolTransfer {
  import opened Options
  import opened Paging
  import opened LineCounting
  import opened Base64
  import opened PagedTransfer

  datatype SpoolState = NotCreated | Serving(nextOffset: nat) | Deleted

  /** What Docker returned for the query, and the server's two limits. */
  datatype Spool = Spool(transferId: string, content: seq<byte>, byteCap: nat, transferCap: nat, state: SpoolState)

  const SERVER_ERROR := GatewayError("socket_app_gateway_error")

  function PageFrom(s: Spool, offset: nat, limit: nat): (Spool, Reply)
  {
    var end := Min(offset + limit, |s.content|);
    var page := if offset <= end then s.content[offset..end] else [];
    var next := offset + |page|;
    var truncated := next < |s.content|;
    (s.(state := if truncated then Serving(next) else Deleted),
     Answer(PagePayload(
       JStr(Encode(page)), JInt(offset), JInt(|page|), JInt(limit), JBool(truncated),
       if truncated then JInt(next) else JNull,
       if truncated then JStr(s.transferId) else JNull)))
  }

  /** A new transfer fills a spool unless the log is too long; a continuation must name a spool and its
      exact offset. Before either is served, a spool that has expired is removed. */
  function Serve(s: Spool, r: Request, expired: bool): (Spool, Reply)
  {
    var limit := Min(r.maxBytes, s.byteCap);
    match r
    case NewTransfer(_, offset, _) =>
      if offset != 0 || s.transferCap < |s.content| then (s, SERVER_ERROR)
      else if expired then (s.(state := Deleted), SERVER_ERROR)
      else PageFrom(s, 0, limit)
    case NextPage(id, offset, _) =>
      if expired then (s.(state := Deleted), SERVER_ERROR)
      else if !s.state.Serving? || id != s.transferId || offset != s.state.nextOffset then (s, SERVER_ERROR)
      else PageFrom(s, offset, limit)
  }

  /** n rounds of request and reply; `expired` says before which rounds the spool was left too long. */
  function Exchange(s: Spool, q: Query, expired: nat -> bool, n: nat): (Spool, Client)
  {
    if n == 0 then (s, START)
    else
      var (server, client) := Exchange(s, q, expired, n - 1);
      if !client.status.Running? then (server, client)
      else
        var (server', reply) := Serve(server, RequestOf(q, client), expired(n - 1));
        (server', Receive(client, reply))
  }

  lemma PageRoundTrip(s: Spool, offset: nat, limit: nat)
    requires offset <= |s.content| && 0 < limit && s.transferId != ""
    requires offset < |s.content| || offset == 0
    ensures var end := Min(offset + limit, |s.content|);
            var (server, reply) := PageFrom(s, offset, limit);
            && reply.Answer?
            && server == s.(state := if end < |s.content| then Serving(end) else Deleted)
            && ValidatedPage(reply.payload, offset) == Valid(Page(
                 s.content[offset..end], limit, end < |s.content|,
                 if end < |s.content| then JInt(end) else JNull,
                 if end < |s.content| then JStr(s.transferId) else JNull))
  {
    hide Encode, Decode, ValidatedPage;
    var end := Min(offset + limit, |s.content|);
    var page := s.content[offset..end];
    HonestPageIsValid(page, offset, limit,
                      if end < |s.content| then Some(s.transferId) else None);
  }

  lemma HonestPageIsValid(content: seq<byte>, offset: nat, limit: nat, more: Option<string>)
    requires 0 < limit && (more.Some? ==> more.value != "" && content != [])
    ensures var next, id := if more.Some? then JInt(offset + |content|) else JNull,
                            if more.Some? then JStr(more.value) else JNull;
            ValidatedPage(PagePayload(JStr(Encode(content)), JInt(offset), JInt(|content|), JInt(limit),
                                      JBool(more.Some?), next, id), offset)
            == Valid(Page(content, limit, more.Some?, next, id))
  {
    hide Encode, Decode;
    DecodeEncode(content);
  }

  /** Where an undisturbed exchange stands after n rounds. */
  ghost predicate After(s: Spool, limit: nat, n: nat, server: Spool, c: Client)
  {
    var reached := Min(n * limit, |s.content|);
    && c.written == s.content[..reached] && |c.pages| == n
    && (n == 0 ==> c == START && server == s)
    && (0 < n && n * limit < |s.content| ==>
          c.status.Running? && c.offset == reached && c.transferId == Some(s.transferId)
          && server == s.(state := Serving(reached)))
    && (0 < n && |s.content| <= n * limit ==> c.status.Finished? && server == s.(state := Deleted))
  }

  function PageLimit(s: Spool): nat
  {
    Min(DOCKER_LOG_PAGE_MAX_BYTES, s.byteCap)
  }

  function Needed(s: Spool): nat
    requires 0 < s.byteCap
  {
    PagesNeeded(|s.content|, PageLimit(s))
  }

  lemma RoundStep(s: Spool, q: Query, n: nat, server: Spool, c: Client)
    requires s.transferId != "" && 0 < s.byteCap && |s.content| <= s.transferCap
    requires After(s, PageLimit(s), n, server, c) && (n == 0 || n * PageLimit(s) < |s.content|)
    ensures c.status.Running?
    ensures var (server', reply) := Serve(server, RequestOf(q, c), false);
            After(s, PageLimit(s), n + 1, server', Receive(c, reply))
  {
    hide ValidatedPage, PageFrom;
    var limit := PageLimit(s);
    PageRoundTrip(server, c.offset, limit);
    assert (n + 1) * limit == n * limit + limit;
    assert c.offset == Min(n * limit, |s.content|);
    var end := Min(c.offset + limit, |s.content|);
    assert s.content[..c.offset] + s.content[c.offset..end] == s.content[..end];
  }

  /** The spool is alive in every round before n; its first one is right after its creation. */
  ghost predicate AliveUntil(expired: nat -> bool, n: nat)
  {
    forall r :: 0 <= r < n ==> !expired(r)
  }

  lemma {:induction false} ExchangeReaches(s: Spool, q: Query, expired: nat -> bool, n: nat)
    requires s.transferId != "" && 0 < s.byteCap && |s.content| <= s.transferCap
    requires n <= Needed(s) && AliveUntil(expired, n)
    ensures After(s, PageLimit(s), n, Exchange(s, q, expired, n).0, Exchange(s, q, expired, n).1)
  {
    hide After, Serve, Receive;
    if n == 0 {
      NothingExchanged(s, PageLimit(s));
    } else {
      ExchangeReaches(s, q, expired, n - 1);
      CeilDivBounds(|s.content|, PageLimit(s), n - 1);
      RoundStep(s, q, n - 1, Exchange(s, q, expired, n - 1).0, Exchange(s, q, expired, n - 1).1);
    }
  }

  lemma NothingExchanged(s: Spool, limit: nat)
    ensures After(s, limit, 0, s, START)
  {
  }

  lemma {:induction false} ExchangeStays(s: Spool, q: Query, expired: nat -> bool, m: nat, n: nat)
    requires m <= n && !Exchange(s, q, expired, m).1.status.Running?
    ensures Exchange(s, q, expired, n) == Exchange(s, q, expired, m)
  {
    if m < n {
      ExchangeStays(s, q, expired, m, n - 1);
    }
  }

  /** The transfer ends unsuccessfully with a prefix of the log, a proper one of any log but the empty. */
  ghost predicate CutShort(s: Spool, c: Client)
  {
    && c.status == Unavailable(SourceError)
    && c.written <= s.content && (s.content != [] ==> c.written < s.content)
  }

  lemma ExpiredRoundCutsShort(s: Spool, q: Query, expired: nat -> bool, r: nat)
    requires s.transferId != "" && 0 < s.byteCap && |s.content| <= s.transferCap
    requires r < Needed(s) && AliveUntil(expired, r) && expired(r)
    ensures CutShort(s, Exchange(s, q, expired, r + 1).1)
  {
    ExchangeReaches(s, q, expired, r);
    CeilDivBounds(|s.content|, PageLimit(s), r);
    hide Receive, ValidatedPage;
    ErrorReplyStops(Exchange(s, q, expired, r).1);
  }

  lemma ErrorReplyStops(c: Client)
    requires c.status.Running?
    ensures Receive(c, SERVER_ERROR) == c.(status := Unavailable(SourceError))
  {
  }

  lemma {:induction false} FirstExpiry(expired: nat -> bool, n: nat) returns (r: nat)
    requires !AliveUntil(expired, n)
    ensures r < n && AliveUntil(expired, r) && expired(r)
  {
    assert n != 0;
    if AliveUntil(expired, n - 1) {
      r := n - 1;
    } else {
      r := FirstExpiry(expired, n - 1);
    }
  }

  lemma LongLogIsRefused(s: Spool, q: Query, expired: nat -> bool)
    requires s.transferCap < |s.content|
    ensures CutShort(s, Exchange(s, q, expired, 1).1)
  {
    assert Exchange(s, q, expired, 0) == (s, START);
    ErrorReplyStops(START);
    hide Receive;
  }

  /** The log fits the transfer limit and the spool is alive whenever a page of it is asked for. */
  ghost predicate Undisturbed(s: Spool, expired: nat -> bool)
    requires 0 < s.byteCap
  {
    |s.content| <= s.transferCap && AliveUntil(expired, Needed(s))
  }

  /** Against one immutable spool every transfer ends within the needed rounds. It succeeds exactly
      when the log fits the limit and the spool is alive at every page; the file then equals the
      spool, which is deleted. Otherwise the source is unavailable and only a prefix is written, a
      proper one of any log but the empty. */
  lemma SpoolIsTransferredExactly(s: Spool, q: Query, expired: nat -> bool, n: nat)
    requires s.transferId != "" && 0 < s.byteCap && Needed(s) <= n
    ensures var (server, c) := Exchange(s, q, expired, n);
            && (c.status.Finished? <==> Undisturbed(s, expired))
            && (Undisturbed(s, expired) ==>
                  c.written == s.content && |c.pages| == Needed(s) && server.state.Deleted?)
            && (!Undisturbed(s, expired) ==> CutShort(s, c))
  {
    hide Exchange, CutShort;
    if Undisturbed(s, expired) {
      ExchangeReaches(s, q, expired, Needed(s));
      CeilDivBounds(|s.content|, PageLimit(s), Needed(s));
      ExchangeStays(s, q, expired, Needed(s), n);
    } else {
      var stop := DisturbedStops(s, q, expired);
      CutShortIsFinal(s, Exchange(s, q, expired, stop).1);
      ExchangeStays(s, q, expired, stop, n);
    }
  }

  lemma CutShortIsFinal(s: Spool, c: Client)
    requires CutShort(s, c)
    ensures !c.status.Running? && !c.status.Finished?
  {
  }

  lemma DisturbedStops(s: Spool, q: Query, expired: nat -> bool) returns (stop: nat)
    requires s.transferId != "" && 0 < s.byteCap && !Undisturbed(s, expired)
    ensures stop <= Needed(s) && CutShort(s, Exchange(s, q, expired, stop).1)
  {
    hide Exchange, CutShort;
    CeilDivBounds(|s.content|, PageLimit(s), 0);
    if s.transferCap < |s.content| {
      LongLogIsRefused(s, q, expired);
      stop := 1;
    } else {
      var r := FirstExpiry(expired, Needed(s));
      ExpiredRoundCutsShort(s, q, expired, r);
      stop := r + 1;
    }
  }

  /** Before that the undisturbed client is still running: it takes exactly the needed rounds. */
  lemma TransferTakesEveryRound(s: Spool, q: Query, expired: nat -> bool, n: nat)
    requires s.transferId != "" && 0 < s.byteCap && Undisturbed(s, expired) && n < Needed(s)
    ensures Exchange(s, q, expired, n).1.status.Running?
  {
    ExchangeReaches(s, q, expired, n);
    CeilDivBounds(|s.content|, PageLimit(s), n);
  }
}
