/** The ingestion service as the objects it is made of: the mailbox connection it drives,
    the store it saves records to, and the service itself, whose fields the transport
    signals update in place. Every method is proved to make exactly the transition of
    `ImapSession`, so the lemmas proved there hold of these objects. */
module ImapServiceObjects {
  import opened Optional
  import opened MailRecord
  import opened ImapSession

  /** The mailbox connection (the `imap` client object) as the service uses it: it records the
      commands it receives and the listeners registered on it, and answers inbox opens,
      searches and fetches from fixed reply scripts. */
  class ImapTransport {
    var handlers: seq<Handler>
    var connectCalls: nat
    var endCalls: nat
    var openBoxCalls: nat
    var searchCalls: nat
    var fetchBatches: seq<seq<nat>>
    const openBoxOk: nat -> bool
    const searchReply: nat -> SearchReply
    const fetchParsed: nat -> Option<ParsedMail>

    /** What the transport has recorded so far. */
    ghost function Log(): TransportLog
      reads this
    {
      TransportLog(handlers, connectCalls, endCalls, openBoxCalls, searchCalls, fetchBatches)
    }

    constructor (openBoxOk: nat -> bool, searchReply: nat -> SearchReply,
                 fetchParsed: nat -> Option<ParsedMail>)
      ensures Log() == TransportLog([], 0, 0, 0, 0, [])
      ensures this.openBoxOk == openBoxOk && this.searchReply == searchReply
      ensures this.fetchParsed == fetchParsed
    {
      handlers, connectCalls, endCalls, openBoxCalls, searchCalls, fetchBatches := [], 0, 0, 0, 0, [];
      this.openBoxOk, this.searchReply, this.fetchParsed := openBoxOk, searchReply, fetchParsed;
    }

    /** Registers a listener after those already registered. */
    method On(h: Handler)
      modifies this
      ensures Log() == old(Log()).(handlers := old(handlers) + [h])
    {
      handlers := handlers + [h];
    }

    method Connect()
      modifies this
      ensures Log() == old(Log()).(connectCalls := old(connectCalls) + 1)
    {
      connectCalls := connectCalls + 1;
    }

    method End()
      modifies this
      ensures Log() == old(Log()).(endCalls := old(endCalls) + 1)
    {
      endCalls := endCalls + 1;
    }

    /** Opens the inbox for reading and writing; `ok` is false when the open fails. */
    method OpenBox() returns (ok: bool)
      modifies this
      ensures ok == openBoxOk(old(openBoxCalls))
      ensures Log() == old(Log()).(openBoxCalls := old(openBoxCalls) + 1)
    {
      ok := openBoxOk(openBoxCalls);
      openBoxCalls := openBoxCalls + 1;
    }

    /** Searches the open mailbox for `UNSEEN` messages. */
    method Search() returns (reply: SearchReply)
      modifies this
      ensures reply == searchReply(old(searchCalls))
      ensures Log() == old(Log()).(searchCalls := old(searchCalls) + 1)
    {
      reply := searchReply(searchCalls);
      searchCalls := searchCalls + 1;
    }

    /** Fetches the full bodies of a batch, marking its messages seen. */
    method Fetch(ids: seq<nat>)
      modifies this
      ensures Log() == old(Log()).(fetchBatches := old(fetchBatches) + [ids])
    {
      fetchBatches := fetchBatches + [ids];
    }

    /** The body of the fetched message with UID `id`, once its stream has ended, as the
      external parser gives it; `None` when fetching or parsing it fails. */
    method Parsed(id: nat) returns (p: Option<ParsedMail>)
      ensures p == fetchParsed(id)
    {
      p := fetchParsed(id);
    }
  }

  /** The store of `Mail` records. */
  class MailRepository {
    var saved: seq<Mail>
    const saveOk: Mail -> bool

    constructor (saveOk: Mail -> bool)
      ensures saved == [] && this.saveOk == saveOk
    {
      saved := [];
      this.saveOk := saveOk;
    }

    /** Saves a record; `ok` is false when the store rejects it, and then nothing is saved. */
    method Save(m: Mail) returns (ok: bool)
      modifies this
      ensures ok == saveOk(m)
      ensures saved == if ok then old(saved) + [m] else old(saved)
    {
      ok := saveOk(m);
      if ok {
        saved := saved + [m];
      }
    }
  }

  /** The mailbox-watching service. */
  class ImapService {
    const client: ImapTransport
    const mailRepository: MailRepository
    var isConnected: bool
    var pendingReconnects: nat
    var emitted: seq<Event>

    /** The replies of the collaborators. */
    function Replies(): Oracles {
      Oracles(client.openBoxOk, client.searchReply, client.fetchParsed, mailRepository.saveOk)
    }

    /** The state of the service and its collaborators, as a value. */
    ghost function Snapshot(): Session
      reads this, client, mailRepository
    {
      Session(isConnected, pendingReconnects, emitted, client.Log(), mailRepository.saved)
    }

    /** Creates the connection and registers the `ready`, `error` and `end` listeners. */
    constructor (openBoxOk: nat -> bool, searchReply: nat -> SearchReply,
                 fetchParsed: nat -> Option<ParsedMail>, saveOk: Mail -> bool)
      ensures Snapshot() == Initial()
      ensures Replies() == Oracles(openBoxOk, searchReply, fetchParsed, saveOk)
      ensures fresh(client) && fresh(mailRepository)
    {
      client := new ImapTransport(openBoxOk, searchReply, fetchParsed);
      mailRepository := new MailRepository(saveOk);
      isConnected, pendingReconnects, emitted := false, 0, [];
      new;
      client.On(ReadyHandler);
      client.On(ErrorHandler);
      client.On(EndHandler);
    }

    /** `connect`: connects unless already connected. */
    method Connect()
      modifies this, client, mailRepository
      ensures Snapshot() == ConnectCall(old(Snapshot()))
    {
      if !isConnected {
        client.Connect();
      }
    }

    /** `disconnect`: ends the connection when connected. */
    method Disconnect()
      modifies this, client, mailRepository
      ensures Snapshot() == DisconnectCall(old(Snapshot()))
    {
      if isConnected {
        client.End();
      }
    }

    /** The transport signals `ready`. */
    method OnReady()
      modifies this, client, mailRepository
      ensures Snapshot() == ImapSession.OnReady(Replies(), old(Snapshot()))
    {
      isConnected := true;
      OpenInbox();
    }

    /** The transport signals an error: the service emits it again. */
    method OnError(err: TransportError)
      modifies this, client, mailRepository
      ensures Snapshot() == ImapSession.OnError(old(Snapshot()), err)
    {
      emitted := emitted + [ErrorEvent(err)];
    }

    /** The transport signals `end`: the service emits `end` and schedules a reconnect
      after 5000 ms. */
    method OnEnd()
      modifies this, client, mailRepository
      ensures Snapshot() == ImapSession.OnEnd(old(Snapshot()))
    {
      isConnected := false;
      emitted := emitted + [EndEvent];
      pendingReconnects := pendingReconnects + 1;
    }

    /** A reconnect scheduled by `OnEnd` fires and calls `connect`. */
    method OnReconnectTimer()
      requires pendingReconnects > 0
      modifies this, client, mailRepository
      ensures Snapshot() == OnTimer(old(Snapshot()))
    {
      pendingReconnects := pendingReconnects - 1;
      Connect();
    }

    /** Opens the inbox; on success registers a `mail` listener and searches once. */
    method OpenInbox()
      modifies this, client, mailRepository
      ensures Snapshot() == ImapSession.OpenInbox(Replies(), old(Snapshot()))
    {
      var ok := client.OpenBox();
      if !ok {
        return;
      }
      client.On(MailHandler);
      SearchUnread();
    }

    /** The `mail` listener: a new message arrived. */
    method OnNewMail()
      modifies this, client, mailRepository
      ensures Snapshot() == ImapSession.SearchUnread(Replies(), old(Snapshot()))
    {
      SearchUnread();
    }

    /** The transport signals new mail: each registered `mail` listener runs, in
      registration order. */
    method DeliverMail()
      modifies this, client, mailRepository
      ensures Snapshot() == ImapSession.OnMail(Replies(), old(Snapshot()))
    {
      var hs := client.handlers;
      var i := 0;
      while i < |hs|
        invariant 0 <= i <= |hs|
        invariant client.handlers == hs
        invariant Dispatch(Replies(), Snapshot(), hs[i..]) == ImapSession.OnMail(Replies(), old(Snapshot()))
      {
        assert hs[i..][1..] == hs[i + 1..];
        if hs[i] == MailHandler {
          OnNewMail();
        }
        i := i + 1;
      }
    }

    /** Searches for unseen messages and fetches them when there are any. */
    method SearchUnread()
      modifies this, client, mailRepository
      ensures Snapshot() == ImapSession.SearchUnread(Replies(), old(Snapshot()))
    {
      var reply := client.Search();
      match reply
      case SearchFailed =>
        return;
      case Found(ids) =>
        if |ids| == 0 {
          return;
        }
        FetchEmails(ids);
    }

    /** Fetches a batch; each message's record is built, saved, and announced with
      `newMail` once saved. */
    method FetchEmails(ids: seq<nat>)
      modifies this, client, mailRepository
      ensures Snapshot() == ImapSession.FetchEmails(Replies(), old(Snapshot()), ids)
    {
      client.Fetch(ids);
      ghost var recs := Records(Replies(), ids);
      ghost var start := Snapshot();
      var i := 0;
      while i < |ids|
        invariant 0 <= i <= |ids|
        invariant Ingest(Replies().saveOk, Snapshot(), recs[i..]) == Ingest(Replies().saveOk, start, recs)
      {
        var parsed := client.Parsed(ids[i]);
        var rec := match parsed
          case None => None
          case Some(p) => BuildRecord(p);
        assert rec == recs[i];
        assert recs[i..][1..] == recs[i + 1..];
        if rec.Some? {
          var ok := mailRepository.Save(rec.value);
          if ok {
            emitted := emitted + [NewMailEvent(rec.value)];
          }
        }
        i := i + 1;
      }
      IngestSaves(Replies().saveOk, start, recs);
      IngestAnnounces(Replies().saveOk, start, recs);
    }
  }
}
