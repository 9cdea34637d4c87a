/** The announcer object: fields that its methods update in place, each method
    taking exactly the step that `NonceAnnouncer` specifies. */
module SessionNonceAnnouncer {
  import opened Common
  import opened Publication
  import opened NonceAnnouncer
  import OfferText

  class SessionAnnouncer {
    const cfg: Config
    var session: Option<Session>     // the published session and, behind it, its remote document
    var custom: Option<Document>
    var readRestriction: string
    var joinRestriction: string
    var nonces: map<string, string>
    var lastStatus: Status
    var handledSession: Option<nat>

    ghost function View(): Announcer
      reads this
    {
      Announcer(session, custom, readRestriction, joinRestriction, nonces, lastStatus, handledSession)
    }

    constructor (cfg: Config)
      ensures this.cfg == cfg && View() == FRESH
    {
      this.cfg := cfg;
      session, custom, readRestriction, joinRestriction := None, None, "", "";
      nonces, lastStatus, handledSession := map[], NO_STATUS, None;
    }

    method HandleSession()
      modifies `handledSession
      ensures View() == Handle(old(View()))
    {
      if session.None? || handledSession == Some(session.value.id) {
        return;
      }
      handledSession := Some(session.value.id);
    }

    method ResetForRepublish()
      modifies this
      ensures View() == Reset(old(View()))
    {
      session := None;
      handledSession := None;
      custom := None;
      readRestriction := "";
      joinRestriction := "";
      nonces := map[];
    }

    method SetCustomProperties(document: Document, succeeds: bool) returns (ok: bool)
      requires session.Some?
      modifies `session
      ensures ok == succeeds
      ensures session == if ok then Some(old(session).value.(document := document)) else old(session)
    {
      if succeeds {
        session := Some(session.value.(document := document));
      }
      return succeeds;
    }

    method Hide(encodes: bool, writes: bool) returns (failure: Option<Failure>)
      modifies this
      ensures Outcome(View(), failure) == NonceAnnouncer.Hide(old(View()), encodes, writes)
    {
      if session.None? {
        return Some(NotPublished);
      }
      lastStatus := lastStatus.(broadcast := InviteOnly, joinability := JoinableByInvite);
      if !encodes {
        return Some(EncodeFailed);
      }
      var document := Document(lastStatus, nonces);
      var ok := SetCustomProperties(document, writes);
      if !ok {
        return Some(WriteFailed);
      }
      custom := Some(document);
      return None;
    }

    method Announce(status: Status, env: AnnounceEnv) returns (failure: Option<Failure>)
      modifies this
      ensures Outcome(View(), failure) == NonceAnnouncer.Announce(cfg, true, old(View()), status, env)
    {
      var (read, join) := PublishRestrictions(cfg, status);
      if session.Some? && readRestriction == "" && joinRestriction == "" {
        if env.properties {
          readRestriction, joinRestriction := session.value.read, session.value.join;
        }
      }
      if !env.encodes {
        return Some(EncodeFailed);
      }
      lastStatus := status;
      if session.Some? && custom == Some(Document(status, nonces)) && read == readRestriction && join == joinRestriction {
        HandleSession();
        return None;
      }
      if session.Some? && (read != readRestriction || join != joinRestriction) {
        if !cfg.hasClient {
          return Some(NoClient);
        }
        if !env.closes {
          return Some(CloseFailed);
        }
        ResetForRepublish();
      }
      failure := PublishOrWrite(status, env);
    }

    /** The tail of `Announce`: a new session, or a new document for the one there is. */
    method PublishOrWrite(status: Status, env: AnnounceEnv) returns (failure: Option<Failure>)
      requires session.Some? ==> PublishRestrictions(cfg, status) == (readRestriction, joinRestriction)
      modifies this
      ensures Outcome(View(), failure) ==
              if old(session).None? then Publish(cfg, old(View()), status, env) else Rewrite(old(View()), status, env)
    {
      if !env.reencodes {
        return Some(EncodeFailed);
      }
      var document := Document(status, nonces);
      if session.None? {
        if !cfg.hasClient {
          return Some(NoClient);
        }
        if !env.publishes {
          return Some(PublishFailed);
        }
        var (read, join) := PublishRestrictions(cfg, status);
        session := Some(Session(env.newId, document, read, join));
      } else {
        var ok := SetCustomProperties(document, env.writes);
        if !ok {
          return Some(WriteFailed);
        }
      }
      custom := Some(document);
      var (read, join) := PublishRestrictions(cfg, status);
      readRestriction, joinRestriction := read, join;
      HandleSession();
      return None;
    }

    /** The two loops that bring the nonce map in line with the members present; `drawn` is what was generated. */
    method SyncNoncesInPlace(active: set<string>, generate: string -> Option<string>)
      returns (changed: bool, ok: bool, ghost drawn: map<string, string>)
      modifies `nonces
      ensures Synced(nonces, changed, ok) == SyncNonces(old(nonces), active, drawn)
      ensures forall x | x in drawn :: generate(x) == Some(drawn[x])
      ensures !ok ==> exists x :: x in active && generate(x) == None
    {
      ghost var before := nonces;
      ghost var kept := map x | x in before && x in active :: before[x];
      changed, ok, drawn := false, true, map[];
      var present := nonces.Keys;
      while present != {}
        invariant present <= before.Keys && nonces.Keys <= before.Keys
        invariant forall x | x in before :: x in nonces <==> x in present || x in active
        invariant forall x | x in nonces :: nonces[x] == before[x]
        invariant changed <==> nonces != before
      {
        var xuid :| xuid in present;
        present := present - {xuid};
        if xuid !in active {
          nonces := nonces - {xuid};
          assert xuid in before && xuid !in nonces;
          changed := true;
        }
      }
      assert nonces == kept;
      var todo := active;
      while todo != {}
        invariant todo <= active
        invariant nonces == kept + drawn
        invariant drawn.Keys == active - kept.Keys - todo
        invariant forall x | x in drawn :: generate(x) == Some(drawn[x])
        invariant changed <==> kept != before || drawn != map[]
      {
        var xuid :| xuid in todo;
        todo := todo - {xuid};
        if xuid in nonces {
          continue;
        }
        var nonce := generate(xuid);
        if nonce.None? {
          SyncStopsAt(before, active, drawn, xuid);
          return false, false, drawn;
        }
        nonces := nonces[xuid := nonce.value];
        drawn := drawn[xuid := nonce.value];
        assert xuid in drawn;
        changed := true;
      }
      SyncCompletes(before, active, drawn);
    }

    static lemma SyncStopsAt(nonces: map<string, string>, active: set<string>, drawn: map<string, string>, xuid: string)
      requires var kept := map x | x in nonces && x in active :: nonces[x];
               drawn.Keys <= active - kept.Keys && xuid in active - kept.Keys && xuid !in drawn
      ensures var kept := map x | x in nonces && x in active :: nonces[x];
              SyncNonces(nonces, active, drawn) == Synced(kept + drawn, false, false)
    {
      var kept := map x | x in nonces && x in active :: nonces[x];
      assert (map x | x in drawn && x in active - kept.Keys :: drawn[x]) == drawn;
    }

    static lemma SyncCompletes(nonces: map<string, string>, active: set<string>, drawn: map<string, string>)
      requires var kept := map x | x in nonces && x in active :: nonces[x];
               drawn.Keys == active - kept.Keys
      ensures var kept := map x | x in nonces && x in active :: nonces[x];
              SyncNonces(nonces, active, drawn) == Synced(kept + drawn, kept != nonces || drawn != map[], true)
    {
      var kept := map x | x in nonces && x in active :: nonces[x];
      assert (map x | x in drawn && x in active - kept.Keys :: drawn[x]) == drawn;
      assert active - kept.Keys == {} <==> drawn == map[];
    }

    method UpdateNonces(changedSession: nat, members: seq<string>, generate: string -> Option<string>, encodes: bool, writes: bool)
      returns (failure: Option<Failure>, ghost drawn: map<string, string>)
      modifies this
      ensures Outcome(View(), failure) ==
              NonceAnnouncer.UpdateNonces(cfg, old(View()), changedSession, members, drawn, encodes, writes)
    {
      drawn := map[];
      if session.None? || session.value.id != changedSession {
        return None, drawn;
      }
      var changed, ok;
      changed, ok, drawn := SyncNoncesInPlace(ActiveMembers(members, cfg.owner), generate);
      if !ok {
        return Some(GenerateFailed), drawn;
      }
      if !changed {
        return None, drawn;
      }
      if !encodes {
        return Some(EncodeFailed), drawn;
      }
      var document := Document(lastStatus, nonces);
      var written := SetCustomProperties(document, writes);
      if !written {
        return Some(WriteFailed), drawn;
      }
      custom := Some(document);
      return None, drawn;
    }
  }
}
