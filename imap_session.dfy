/** The ingestion service's behaviour as a value-level state machine: the state the
    service and its collaborators keep, and one function per transport signal or public
    call. The class `ImapServiceObjects.ImapService` is proved to follow these transitions. */
module ImapSession {
  import opened Optional
  import opened MailRecord

  /** A listener registered on the transport: the three installed when the service is
      created, and one `mail` listener per successful inbox open. */
  datatype Handler = ReadyHandler | ErrorHandler | EndHandler | MailHandler

  /** The transport's answer to an `UNSEEN` search. */
  datatype SearchReply = SearchFailed | Found(ids: seq<nat>)

  /** An error reported by the transport. */
  datatype TransportError = TransportError(message: string)

  /** An event the service emits to its own listeners. */
  datatype Event = ErrorEvent(err: TransportError) | EndEvent | NewMailEvent(mail: Mail)

  /** The answers of the collaborators the service cannot see: whether the n-th inbox open
      succeeds, the reply to the n-th unread search, the parsed message fetched for a
      message UID (the identifiers `search` answers and `fetch` takes; `None` when
      fetching or parsing it fails), and whether the store accepts a record. */
  datatype Oracles = Oracles(
    openBoxOk: nat -> bool,
    searchReply: nat -> SearchReply,
    fetchParsed: nat -> Option<ParsedMail>,
    saveOk: Mail -> bool)

  /** What the transport records: the listeners registered on it, in registration
      order, the number of each command it received, and the batches it fetched. */
  datatype TransportLog = TransportLog(
    handlers: seq<Handler>,
    connectCalls: nat,
    endCalls: nat,
    openBoxCalls: nat,
    searchCalls: nat,
    fetchBatches: seq<seq<nat>>)

  /** The service's own state (`isConnected`, the pending reconnect timers, the events it
      emitted), the transport's record, and the records the store holds. */
  datatype Session = Session(
    isConnected: bool,
    pendingReconnects: nat,
    emitted: seq<Event>,
    transport: TransportLog,
    saved: seq<Mail>)

  /** The signals that drive the service: its two public calls, the transport's four
      signals, and a scheduled reconnect timer firing. */
  datatype Signal = Connect | Disconnect | Ready | Error(err: TransportError) | End | NewMail | Timer

  /** The state right after the service is constructed. */
  function Initial(): (s: Session)
    ensures !s.isConnected && s.pendingReconnects == 0 && s.emitted == [] && s.saved == []
    ensures s.transport.handlers == [ReadyHandler, ErrorHandler, EndHandler]
  {
    Session(false, 0, [], TransportLog([ReadyHandler, ErrorHandler, EndHandler], 0, 0, 0, 0, []), [])
  }

  /** Number of `mail` listeners among `hs`. */
  function MailListeners(hs: seq<Handler>): nat {
    if hs == [] then 0 else (if hs[0] == MailHandler then 1 else 0) + MailListeners(hs[1..])
  }

  /** Number of inbox opens among the first `n` that succeed. */
  function SuccessfulOpens(o: Oracles, n: nat): nat {
    if n == 0 then 0 else SuccessfulOpens(o, n - 1) + (if o.openBoxOk(n - 1) then 1 else 0)
  }

  /** The mails among `events`, in order. */
  function Announced(events: seq<Event>): seq<Mail> {
    if events == [] then []
    else Announced(events[..|events| - 1])
         + (if events[|events| - 1].NewMailEvent? then [events[|events| - 1].mail] else [])
  }

  /** Every record the store accepted was announced with a `newMail` event, in the order
      they were saved, and nothing else was announced. */
  ghost predicate Consistent(s: Session) {
    Announced(s.emitted) == s.saved
  }

  /** The record the service builds for the message with UID `id`: `None`
      when fetching or parsing that message fails or when building its record throws. */
  function RecordOf(o: Oracles, id: nat): Option<Mail> {
    match o.fetchParsed(id)
    case None => None
    case Some(p) => BuildRecord(p)
  }

  /** The records built for a fetch batch, one per message, in batch order. */
  function Records(o: Oracles, ids: seq<nat>): (r: seq<Option<Mail>>)
    ensures |r| == |ids|
  {
    seq(|ids|, i requires 0 <= i < |ids| => RecordOf(o, ids[i]))
  }

  /** The records among `recs` that the store accepts, in order. */
  function Kept(saveOk: Mail -> bool, recs: seq<Option<Mail>>): (r: seq<Mail>)
    ensures |r| <= |recs|
  {
    if recs == [] then []
    else (if recs[0].Some? && saveOk(recs[0].value) then [recs[0].value] else []) + Kept(saveOk, recs[1..])
  }

  /** The records a fetch batch adds to the store, in batch order. */
  function Accepted(o: Oracles, ids: seq<nat>): seq<Mail> {
    Kept(o.saveOk, Records(o, ids))
  }

  /** `newMail` events for `mails`, in order. */
  function Announce(mails: seq<Mail>): (r: seq<Event>)
    ensures |r| == |mails|
    ensures forall i :: 0 <= i < |r| ==> r[i] == NewMailEvent(mails[i])
  {
    seq(|mails|, i requires 0 <= i < |mails| => NewMailEvent(mails[i]))
  }

  lemma {:induction false} AnnouncedAppend(events: seq<Event>, more: seq<Event>)
    ensures Announced(events + more) == Announced(events) + Announced(more)
    decreases |more|
  {
    if more == [] {
      assert events + more == events;
    } else {
      var last := |more| - 1;
      assert (events + more)[..|events + more| - 1] == events + more[..last];
      AnnouncedAppend(events, more[..last]);
      assert Announced(more) == Announced(more[..last])
        + (if more[last].NewMailEvent? then [more[last].mail] else []);
    }
  }

  /** Announcing records and then reading the announced mails gives the records back. */
  lemma {:induction false} AnnouncedAnnounce(mails: seq<Mail>)
    ensures Announced(Announce(mails)) == mails
    decreases |mails|
  {
    if mails != [] {
      var last := |mails| - 1;
      assert Announce(mails)[..last] == Announce(mails[..last]);
      AnnouncedAnnounce(mails[..last]);
      assert mails[..last] + [mails[last]] == mails;
    }
  }

  lemma {:induction false} MailListenersAppend(hs: seq<Handler>, h: Handler)
    ensures MailListeners(hs + [h]) == MailListeners(hs) + (if h == MailHandler then 1 else 0)
    decreases |hs|
  {
    if hs == [] {
      assert MailListeners([h]) == (if h == MailHandler then 1 else 0) + MailListeners([]);
    } else {
      assert (hs + [h])[1..] == hs[1..] + [h];
      MailListenersAppend(hs[1..], h);
    }
  }

  /** `connect`: asks the transport to connect only while not connected; otherwise
      nothing changes. */
  function ConnectCall(s: Session): (r: Session)
    ensures r.transport.connectCalls == s.transport.connectCalls + 1 <==> !s.isConnected
    ensures r.transport.connectCalls == s.transport.connectCalls <==> s.isConnected
    ensures r.transport.(connectCalls := s.transport.connectCalls) == s.transport
    ensures r.isConnected == s.isConnected && r.pendingReconnects == s.pendingReconnects
    ensures r.emitted == s.emitted && r.saved == s.saved
  {
    if !s.isConnected then s.(transport := s.transport.(connectCalls := s.transport.connectCalls + 1)) else s
  }

  /** `disconnect`: asks the transport to end only while connected; otherwise nothing
      changes. A pending reconnect is not cancelled. */
  function DisconnectCall(s: Session): (r: Session)
    ensures r.transport.endCalls == s.transport.endCalls + 1 <==> s.isConnected
    ensures r.transport.endCalls == s.transport.endCalls <==> !s.isConnected
    ensures r.transport.(endCalls := s.transport.endCalls) == s.transport
    ensures r.isConnected == s.isConnected && r.pendingReconnects == s.pendingReconnects
    ensures r.emitted == s.emitted && r.saved == s.saved
  {
    if s.isConnected then s.(transport := s.transport.(endCalls := s.transport.endCalls + 1)) else s
  }

  lemma AnnounceAppend(a: seq<Mail>, b: seq<Mail>)
    ensures Announce(a + b) == Announce(a) + Announce(b)
  {
  }

  /** One fetched message: its record, if built and accepted by the store, is saved and
      then announced; otherwise nothing changes. */
  function IngestOne(saveOk: Mail -> bool, s: Session, rec: Option<Mail>): (r: Session)
    ensures r.saved == s.saved + Kept(saveOk, [rec])
    ensures r.emitted == s.emitted + Announce(Kept(saveOk, [rec]))
    ensures r.isConnected == s.isConnected && r.pendingReconnects == s.pendingReconnects
    ensures r.transport == s.transport
  {
    if rec.Some? && saveOk(rec.value) then
      s.(saved := s.saved + [rec.value], emitted := s.emitted + [NewMailEvent(rec.value)])
    else s
  }

  /** The records of a fetch batch are stored one by one; each accepted record is
      announced with a `newMail` event right after it is saved (`IngestSaves`, `IngestAnnounces`). */
  function Ingest(saveOk: Mail -> bool, s: Session, recs: seq<Option<Mail>>): (r: Session)
    ensures r.isConnected == s.isConnected && r.pendingReconnects == s.pendingReconnects
    ensures r.transport == s.transport
    decreases |recs|
  {
    if recs == [] then s else Ingest(saveOk, IngestOne(saveOk, s, recs[0]), recs[1..])
  }

  lemma KeptCons(saveOk: Mail -> bool, recs: seq<Option<Mail>>)
    requires recs != []
    ensures Kept(saveOk, recs) == Kept(saveOk, [recs[0]]) + Kept(saveOk, recs[1..])
  {
    assert [recs[0]][1..] == [];
  }

  /** Ingesting a batch adds exactly the accepted records to the store, in order. */
  lemma {:induction false} IngestSaves(saveOk: Mail -> bool, s: Session, recs: seq<Option<Mail>>)
    ensures Ingest(saveOk, s, recs).saved == s.saved + Kept(saveOk, recs)
    decreases |recs|
  {
    if recs != [] {
      var s1 := IngestOne(saveOk, s, recs[0]);
      IngestSaves(saveOk, s1, recs[1..]);
      KeptCons(saveOk, recs);
      assert s1.saved + Kept(saveOk, recs[1..]) == s.saved + (Kept(saveOk, [recs[0]]) + Kept(saveOk, recs[1..]));
    }
  }

  /** Ingesting a batch emits one `newMail` event per accepted record, in order. */
  lemma {:induction false} IngestAnnounces(saveOk: Mail -> bool, s: Session, recs: seq<Option<Mail>>)
    ensures Ingest(saveOk, s, recs).emitted == s.emitted + Announce(Kept(saveOk, recs))
    decreases |recs|
  {
    if recs != [] {
      var s1 := IngestOne(saveOk, s, recs[0]);
      IngestAnnounces(saveOk, s1, recs[1..]);
      KeptCons(saveOk, recs);
      AnnounceAppend(Kept(saveOk, [recs[0]]), Kept(saveOk, recs[1..]));
      assert s1.emitted + Announce(Kept(saveOk, recs[1..]))
          == s.emitted + (Announce(Kept(saveOk, [recs[0]])) + Announce(Kept(saveOk, recs[1..])));
    }
  }

  /** `fetchEmails`: the transport fetches the batch (marking it seen), then every
      message of it is ingested. */
  function FetchEmails(o: Oracles, s: Session, ids: seq<nat>): (r: Session)
    ensures r.transport == s.transport.(fetchBatches := s.transport.fetchBatches + [ids])
    ensures r.saved == s.saved + Accepted(o, ids)
    ensures r.emitted == s.emitted + Announce(Accepted(o, ids))
    ensures r.isConnected == s.isConnected && r.pendingReconnects == s.pendingReconnects
  {
    var s1 := s.(transport := s.transport.(fetchBatches := s.transport.fetchBatches + [ids]));
    IngestSaves(o.saveOk, s1, Records(o, ids));
    IngestAnnounces(o.saveOk, s1, Records(o, ids));
    Ingest(o.saveOk, s1, Records(o, ids))
  }

  /** `searchUnread`: one `UNSEEN` search; its result is fetched, unchanged, only when the
      search succeeds and finds something. */
  function SearchUnread(o: Oracles, s: Session): (r: Session)
    ensures r.transport.searchCalls == s.transport.searchCalls + 1
    ensures (match o.searchReply(s.transport.searchCalls)
             case Found(ids) =>
               if ids == [] then r.transport.fetchBatches == s.transport.fetchBatches && r.saved == s.saved && r.emitted == s.emitted
               else r.transport.fetchBatches == s.transport.fetchBatches + [ids] && r.saved == s.saved + Accepted(o, ids)
                    && r.emitted == s.emitted + Announce(Accepted(o, ids))
             case SearchFailed =>
               r.transport.fetchBatches == s.transport.fetchBatches && r.saved == s.saved && r.emitted == s.emitted)
    ensures r.transport.(searchCalls := s.transport.searchCalls, fetchBatches := s.transport.fetchBatches) == s.transport
    ensures r.isConnected == s.isConnected && r.pendingReconnects == s.pendingReconnects
  {
    var s1 := s.(transport := s.transport.(searchCalls := s.transport.searchCalls + 1));
    match o.searchReply(s.transport.searchCalls)
    case SearchFailed => s1
    case Found(ids) => if |ids| == 0 then s1 else FetchEmails(o, s1, ids)
  }

  /** `openInbox`: one open; on success one more `mail` listener is registered and one
      unread search follows; on failure nothing is registered and nothing searched. */
  function OpenInbox(o: Oracles, s: Session): (r: Session)
    ensures r.transport.openBoxCalls == s.transport.openBoxCalls + 1
    ensures o.openBoxOk(s.transport.openBoxCalls) ==>
              r.transport.handlers == s.transport.handlers + [MailHandler]
              && r.transport.searchCalls == s.transport.searchCalls + 1
    ensures !o.openBoxOk(s.transport.openBoxCalls) ==>
              r == s.(transport := s.transport.(openBoxCalls := s.transport.openBoxCalls + 1))
    ensures r.isConnected == s.isConnected && r.pendingReconnects == s.pendingReconnects
    ensures r.transport.connectCalls == s.transport.connectCalls && r.transport.endCalls == s.transport.endCalls
  {
    var s1 := s.(transport := s.transport.(openBoxCalls := s.transport.openBoxCalls + 1));
    if o.openBoxOk(s.transport.openBoxCalls) then
      SearchUnread(o, s1.(transport := s1.transport.(handlers := s1.transport.handlers + [MailHandler])))
    else s1
  }

  /** Transport `ready`: the service is connected and opens the inbox exactly once. */
  function OnReady(o: Oracles, s: Session): (r: Session)
    ensures r.isConnected
    ensures r.transport.openBoxCalls == s.transport.openBoxCalls + 1
    ensures r.pendingReconnects == s.pendingReconnects
    ensures r.transport.connectCalls == s.transport.connectCalls && r.transport.endCalls == s.transport.endCalls
  {
    OpenInbox(o, s.(isConnected := true))
  }

  /** Transport `error`: the same error is emitted again and nothing else changes. */
  function OnError(s: Session, err: TransportError): (r: Session)
    ensures r.emitted == s.emitted + [ErrorEvent(err)]
    ensures r.isConnected == s.isConnected && r.pendingReconnects == s.pendingReconnects
    ensures r.transport == s.transport && r.saved == s.saved
  {
    s.(emitted := s.emitted + [ErrorEvent(err)])
  }

  /** Transport `end`: the service is no longer connected, emits `end`, and schedules
      one more reconnect, whatever number are already pending. */
  function OnEnd(s: Session): (r: Session)
    ensures !r.isConnected
    ensures r.emitted == s.emitted + [EndEvent]
    ensures r.pendingReconnects == s.pendingReconnects + 1
    ensures r.transport == s.transport && r.saved == s.saved
  {
    s.(isConnected := false, emitted := s.emitted + [EndEvent],
       pendingReconnects := s.pendingReconnects + 1)
  }

  /** A scheduled reconnect fires: it goes through the guarded `connect`. */
  function OnTimer(s: Session): (r: Session)
    requires s.pendingReconnects > 0
    ensures r.pendingReconnects == s.pendingReconnects - 1
    ensures r.transport.connectCalls == s.transport.connectCalls + 1 <==> !s.isConnected
    ensures r.transport.(connectCalls := s.transport.connectCalls) == s.transport
    ensures r.isConnected == s.isConnected && r.emitted == s.emitted && r.saved == s.saved
  {
    ConnectCall(s.(pendingReconnects := s.pendingReconnects - 1))
  }

  /** `onNewMail` run once per `mail` listener among `hs`, in registration order. */
  function Dispatch(o: Oracles, s: Session, hs: seq<Handler>): (r: Session)
    ensures r.transport.handlers == s.transport.handlers && r.transport.openBoxCalls == s.transport.openBoxCalls
    ensures r.transport.connectCalls == s.transport.connectCalls && r.transport.endCalls == s.transport.endCalls
    ensures r.isConnected == s.isConnected && r.pendingReconnects == s.pendingReconnects
    ensures Consistent(s) ==> Consistent(r)
    decreases |hs|
  {
    if hs == [] then s
    else
      var s' := if hs[0] == MailHandler then SearchUnread(o, s) else s;
      SearchKeepsConsistent(o, s);
      Dispatch(o, s', hs[1..])
  }

  /** Transport `mail` (new mail arrived): every registered `mail` listener runs. */
  function OnMail(o: Oracles, s: Session): (r: Session)
    ensures r.transport.handlers == s.transport.handlers
    ensures Consistent(s) ==> Consistent(r)
  {
    Dispatch(o, s, s.transport.handlers)
  }

  /** One signal's effect; a timer signal with no reconnect pending cannot occur and
      leaves the state as it is. */
  function Step(o: Oracles, s: Session, sig: Signal): Session {
    match sig
    case Connect => ConnectCall(s)
    case Disconnect => DisconnectCall(s)
    case Ready => OnReady(o, s)
    case Error(err) => OnError(s, err)
    case End => OnEnd(s)
    case NewMail => OnMail(o, s)
    case Timer => if s.pendingReconnects > 0 then OnTimer(s) else s
  }

  /** The state after a sequence of signals. */
  function Run(o: Oracles, s: Session, sigs: seq<Signal>): Session
    decreases |sigs|
  {
    if sigs == [] then s else Run(o, Step(o, s, sigs[0]), sigs[1..])
  }

  /** Ingesting keeps the store and the announced mails in step. */
  lemma SearchKeepsConsistent(o: Oracles, s: Session)
    ensures Consistent(s) ==> Consistent(SearchUnread(o, s))
  {
    match o.searchReply(s.transport.searchCalls)
    case SearchFailed =>
    case Found(ids) =>
      if ids != [] {
        var r := SearchUnread(o, s);
        AnnouncedAppend(s.emitted, Announce(Accepted(o, ids)));
        AnnouncedAnnounce(Accepted(o, ids));
      }
  }

  /** The invariant every reachable state keeps: the store and the announced mails agree,
      and there is one `mail` listener per successful inbox open so far. */
  ghost predicate Inv(o: Oracles, s: Session) {
    Consistent(s) && MailListeners(s.transport.handlers) == SuccessfulOpens(o, s.transport.openBoxCalls)
  }

  lemma InitialInv(o: Oracles)
    ensures Inv(o, Initial())
  {
    assert Announced([]) == [];
  }

  lemma {:induction false} AnnouncedIgnoresOthers(events: seq<Event>, e: Event)
    requires !e.NewMailEvent?
    ensures Announced(events + [e]) == Announced(events)
  {
    assert (events + [e])[..|events|] == events;
  }

  lemma {:induction false} OpenInboxKeepsInv(o: Oracles, s: Session)
    requires Inv(o, s)
    ensures Inv(o, OpenInbox(o, s))
  {
    var k := s.transport.openBoxCalls;
    var s1 := s.(transport := s.transport.(openBoxCalls := k + 1));
    if o.openBoxOk(k) {
      var s2 := s1.(transport := s1.transport.(handlers := s1.transport.handlers + [MailHandler]));
      MailListenersAppend(s.transport.handlers, MailHandler);
      SearchKeepsConsistent(o, s2);
    }
  }

  /** Every signal keeps the invariant. */
  lemma {:induction false} StepKeepsInv(o: Oracles, s: Session, sig: Signal)
    requires Inv(o, s)
    ensures Inv(o, Step(o, s, sig))
  {
    match sig
    case Connect =>
    case Disconnect =>
    case Ready => OpenInboxKeepsInv(o, s.(isConnected := true));
    case Error(err) => AnnouncedIgnoresOthers(s.emitted, ErrorEvent(err));
    case End => AnnouncedIgnoresOthers(s.emitted, EndEvent);
    case NewMail =>
    case Timer =>
  }

  /** Every state reached from a state satisfying the invariant satisfies it. */
  lemma {:induction false} RunKeepsInv(o: Oracles, s: Session, sigs: seq<Signal>)
    requires Inv(o, s)
    ensures Inv(o, Run(o, s, sigs))
    decreases |sigs|
  {
    if sigs != [] {
      StepKeepsInv(o, s, sigs[0]);
      RunKeepsInv(o, Step(o, s, sigs[0]), sigs[1..]);
    }
  }

  /** Running the `mail` listeners among `hs` searches once per listener. */
  lemma {:induction false} DispatchSearches(o: Oracles, s: Session, hs: seq<Handler>)
    ensures Dispatch(o, s, hs).transport.searchCalls == s.transport.searchCalls + MailListeners(hs)
    decreases |hs|
  {
    if hs != [] {
      var s' := if hs[0] == MailHandler then SearchUnread(o, s) else s;
      DispatchSearches(o, s', hs[1..]);
    }
  }

  /** One new-mail signal triggers as many unread searches as there are `mail` listeners. */
  lemma OnMailSearchesPerListener(o: Oracles, s: Session)
    ensures OnMail(o, s).transport.searchCalls == s.transport.searchCalls + MailListeners(s.transport.handlers)
  {
    DispatchSearches(o, s, s.transport.handlers);
  }

  /** In every state the service can reach, one new-mail signal triggers one unread search
      per successful inbox open so far: listeners are never deduplicated, so reconnecting
      multiplies the searches. Throughout, every stored record has been announced once. */
  lemma NewMailFanOut(o: Oracles, sigs: seq<Signal>)
    ensures var s := Run(o, Initial(), sigs);
            Consistent(s)
            && OnMail(o, s).transport.searchCalls == s.transport.searchCalls + SuccessfulOpens(o, s.transport.openBoxCalls)
  {
    InitialInv(o);
    RunKeepsInv(o, Initial(), sigs);
    OnMailSearchesPerListener(o, Run(o, Initial(), sigs));
  }

  /** `n` consecutive `end` signals leave `n` more reconnects pending: there is no
      attempt limit and no failed state. */
  lemma {:induction false} EndsAccumulate(o: Oracles, s: Session, n: nat)
    ensures Run(o, s, seq(n, _ => End)).pendingReconnects == s.pendingReconnects + n
    ensures !Run(o, s, seq(n, _ => End)).isConnected || (n == 0 && s.isConnected)
    decreases n
  {
    if n > 0 {
      var sigs := seq(n, _ => End);
      assert sigs[0] == End && sigs[1..] == seq(n - 1, _ => End);
      EndsAccumulate(o, OnEnd(s), n - 1);
    }
  }

  /** Before the transport reports `ready`, a second `connect` is not suppressed: two calls
      from the initial state issue two transport connects. */
  lemma ConnectNotIdempotentBeforeReady(o: Oracles)
    ensures Run(o, Initial(), [Connect, Connect]).transport.connectCalls == 2
  {
    assert [Connect, Connect][1..] == [Connect];
  }

  /** `disconnect` after an `end` does not cancel the scheduled reconnect: when the timer
      fires, the transport is asked to connect again. */
  lemma DisconnectKeepsScheduledReconnect(o: Oracles, s: Session)
    ensures var r := Run(o, s, [End, Disconnect, Timer]);
            r.transport.connectCalls == s.transport.connectCalls + 1
            && r.transport.endCalls == s.transport.endCalls
            && r.pendingReconnects == s.pendingReconnects
  {
    var sigs := [End, Disconnect, Timer];
    assert sigs[1..] == [Disconnect, Timer] && sigs[1..][1..] == [Timer];
  }

  /** A batch of three unseen messages whose second fails to parse stores and announces
      the other two, in batch order, and emits no error event. */
  lemma BatchWithOneParseFailure(o: Oracles, s: Session, a: nat, b: nat, c: nat, ma: Mail, mc: Mail)
    requires RecordOf(o, a) == Some(ma) && o.saveOk(ma)
    requires o.fetchParsed(b).None?
    requires RecordOf(o, c) == Some(mc) && o.saveOk(mc)
    ensures FetchEmails(o, s, [a, b, c]).saved == s.saved + [ma, mc]
    ensures FetchEmails(o, s, [a, b, c]).emitted == s.emitted + [NewMailEvent(ma), NewMailEvent(mc)]
  {
    var recs := Records(o, [a, b, c]);
    assert recs == [Some(ma), None, Some(mc)];
    var k := o.saveOk;
    assert [Some(mc)][1..] == [];
    assert Kept(k, [Some(mc)]) == [mc];
    assert [None, Some(mc)][1..] == [Some(mc)];
    assert Kept(k, [None, Some(mc)]) == [mc];
    assert recs[1..] == [None, Some(mc)];
    assert Kept(k, recs) == [ma, mc];
    IngestSaves(k, s.(transport := s.transport.(fetchBatches := s.transport.fetchBatches + [[a, b, c]])), recs);
  }
}
