/** The announcer of one session: a cache over a remote document that skips writes it
    believes to be repeats. `Announce`, `Hide` and `UpdateNonces` may each fail part-way;
    a remote call that fails has no effect, and no one else writes the document. */
module NonceAnnouncer {
  import opened Common
  import opened Publication
  import OfferText

  /** What the announcer is configured with, and the library's mapping of settings to restrictions. */
  datatype Config = Config(
    owner: string,
    hasClient: bool,
    readOverride: string,
    joinOverride: string,
    readOf: BroadcastSetting -> string,
    joinOf: BroadcastSetting -> string)

  datatype Failure = NotPublished | EncodeFailed | NoClient | CloseFailed | PublishFailed | WriteFailed | GenerateFailed

  /** A published session as the directory holds it. */
  datatype Session = Session(id: nat, document: Document, read: string, join: string)

  datatype Announcer = Announcer(
    session: Option<Session>,
    custom: Option<Document>,
    read: string,
    join: string,
    nonces: map<string, string>,
    lastStatus: Status,
    handled: Option<nat>)

  const FRESH := Announcer(None, None, "", "", map[], NO_STATUS, None)

  datatype Outcome = Outcome(after: Announcer, failure: Option<Failure>)

  /** How the calls that one `Announce` may make turn out. */
  datatype AnnounceEnv = AnnounceEnv(
    properties: bool,      // the session reports its restrictions
    encodes: bool, reencodes: bool,
    closes: bool, publishes: bool, newId: nat, writes: bool)

  function PublishRestrictions(cfg: Config, status: Status): (string, string) {
    var setting := if status.broadcast == Unset then FriendsOfFriends else status.broadcast;
    (if cfg.readOverride != "" then cfg.readOverride else cfg.readOf(setting),
     if cfg.joinOverride != "" then cfg.joinOverride else cfg.joinOf(setting))
  }

  function Reset(a: Announcer): Announcer {
    Announcer(None, None, "", "", map[], a.lastStatus, None)
  }

  function Handle(a: Announcer): Announcer {
    if a.session.None? then a else a.(handled := Some(a.session.value.id))
  }

  function Learned(a: Announcer, env: AnnounceEnv): Announcer {
    if a.session.Some? && a.read == "" && a.join == "" && env.properties
    then a.(read := a.session.value.read, join := a.session.value.join)
    else a
  }

  function Publish(cfg: Config, a: Announcer, status: Status, env: AnnounceEnv): Outcome {
    var (read, join) := PublishRestrictions(cfg, status);
    var document := Document(status, a.nonces);
    if !env.reencodes then Outcome(a, Some(EncodeFailed))
    else if !cfg.hasClient then Outcome(a, Some(NoClient))
    else if !env.publishes then Outcome(a, Some(PublishFailed))
    else Outcome(
      Handle(a.(session := Some(Session(env.newId, document, read, join)), custom := Some(document), read := read, join := join)),
      None)
  }

  function Write(a: Announcer, document: Document): Announcer
    requires a.session.Some?
  {
    a.(session := Some(a.session.value.(document := document)), custom := Some(document))
  }

  /** Writes the document to the session that is published. */
  function Rewrite(a: Announcer, status: Status, env: AnnounceEnv): Outcome
    requires a.session.Some?
  {
    if !env.reencodes then Outcome(a, Some(EncodeFailed))
    else if !env.writes then Outcome(a, Some(WriteFailed))
    else Outcome(Handle(Write(a, Document(status, a.nonces))), None)
  }

  /** `suppress` tells whether a repeat is skipped, as the program does, or written again. */
  function Announce(cfg: Config, suppress: bool, before: Announcer, status: Status, env: AnnounceEnv): Outcome {
    var (read, join) := PublishRestrictions(cfg, status);
    var a := Learned(before, env);
    if !env.encodes then Outcome(a, Some(EncodeFailed)) else
      var a := a.(lastStatus := status);
      var document := Document(status, a.nonces);
      if a.session.None? then Publish(cfg, a, status, env)
      else if read != a.read || join != a.join then
        if !cfg.hasClient then Outcome(a, Some(NoClient))
        else if !env.closes then Outcome(a, Some(CloseFailed))
        else Publish(cfg, Reset(a), status, env)
      else if suppress && a.custom == Some(document) then Outcome(Handle(a), None)
      else Rewrite(a, status, env)
  }

  function Hide(before: Announcer, encodes: bool, writes: bool): Outcome {
    if before.session.None? then Outcome(before, Some(NotPublished)) else
      var a := before.(lastStatus := Hidden(before.lastStatus));
      if !encodes then Outcome(a, Some(EncodeFailed))
      else if !writes then Outcome(a, Some(WriteFailed))
      else Outcome(Write(a, Document(a.lastStatus, a.nonces)), None)
  }

  /** The members other than the bot itself, by trimmed XUID. */
  function ActiveMembers(members: seq<string>, owner: string): set<string> {
    set m | m in members && OfferText.TrimSpace(m) != "" && OfferText.TrimSpace(m) != OfferText.TrimSpace(owner)
      :: OfferText.TrimSpace(m)
  }

  datatype Synced = Synced(nonces: map<string, string>, changed: bool, ok: bool)

  /** `drawn` holds the nonces generated before the first failure, if there is one. */
  function SyncNonces(nonces: map<string, string>, active: set<string>, drawn: map<string, string>): Synced {
    var kept := map x | x in nonces && x in active :: nonces[x];
    var missing := active - kept.Keys;
    var ok := missing <= drawn.Keys;
    Synced(kept + (map x | x in drawn && x in missing :: drawn[x]), ok && (kept != nonces || missing != {}), ok)
  }

  function UpdateNonces(cfg: Config, a: Announcer, session: nat, members: seq<string>, drawn: map<string, string>,
                        encodes: bool, writes: bool): Outcome {
    if a.session.None? || a.session.value.id != session then Outcome(a, None) else
      var s := SyncNonces(a.nonces, ActiveMembers(members, cfg.owner), drawn);
      var synced := a.(nonces := s.nonces);
      if !s.ok then Outcome(synced, Some(GenerateFailed))
      else if !s.changed then Outcome(synced, None)
      else if !encodes then Outcome(synced, Some(EncodeFailed))
      else if !writes then Outcome(synced, Some(WriteFailed))
      else Outcome(Write(synced, Document(a.lastStatus, s.nonces)), None)
  }

  datatype Op =
    | AnnounceOp(status: Status, env: AnnounceEnv)
    | HideOp(encodes: bool, writes: bool)
    | NoncesOp(session: nat, members: seq<string>, drawn: map<string, string>, encodes: bool, writes: bool)

  function Apply(cfg: Config, suppress: bool, a: Announcer, op: Op): Outcome {
    match op
    case AnnounceOp(status, env) => Announce(cfg, suppress, a, status, env)
    case HideOp(encodes, writes) => Hide(a, encodes, writes)
    case NoncesOp(session, members, drawn, encodes, writes) =>
      UpdateNonces(cfg, a, session, members, drawn, encodes, writes)
  }

  function Run(cfg: Config, suppress: bool, from: Announcer, ops: seq<Op>): Announcer {
    if ops == [] then from
    else Apply(cfg, suppress, Run(cfg, suppress, from, ops[..|ops| - 1]), ops[|ops| - 1]).after
  }

  // ----- the cache matches the remote document -----

  /** What holds between operations of an announcer that started fresh. */
  ghost predicate Coherent(a: Announcer) {
    match a.session
    case None => a.custom == None && a.read == "" && a.join == "" && a.handled == None
    case Some(s) => a.custom == Some(s.document) && a.read == s.read && a.join == s.join && a.handled == Some(s.id)
  }

  lemma ApplyStaysCoherent(cfg: Config, suppress: bool, a: Announcer, op: Op)
    requires Coherent(a)
    ensures Coherent(Apply(cfg, suppress, a, op).after)
  {
    if op.AnnounceOp? {
      AnnounceStaysCoherent(cfg, suppress, a, op.status, op.env);
    }
  }

  lemma AnnounceStaysCoherent(cfg: Config, suppress: bool, a: Announcer, status: Status, env: AnnounceEnv)
    requires Coherent(a)
    ensures Coherent(Announce(cfg, suppress, a, status, env).after)
  {
    assert Learned(a, env) == a;
    assert Coherent(a.(lastStatus := status));
    PublishStaysCoherent(cfg, a.(lastStatus := status), status, env);
    PublishStaysCoherent(cfg, Reset(a.(lastStatus := status)), status, env);
  }

  lemma PublishStaysCoherent(cfg: Config, a: Announcer, status: Status, env: AnnounceEnv)
    requires Coherent(a)
    ensures Coherent(Publish(cfg, a, status, env).after)
  {}

  lemma {:induction false} CacheMatchesRemote(cfg: Config, suppress: bool, ops: seq<Op>)
    ensures Coherent(Run(cfg, suppress, FRESH, ops))
  {
    if ops != [] {
      CacheMatchesRemote(cfg, suppress, ops[..|ops| - 1]);
      ApplyStaysCoherent(cfg, suppress, Run(cfg, suppress, FRESH, ops[..|ops| - 1]), ops[|ops| - 1]);
    }
  }

  /** The remote session holds the encoding of `status` and the current nonces, under the restrictions of `status`. */
  ghost predicate Publishes(cfg: Config, a: Announcer, status: Status) {
    && a.session.Some?
    && a.session.value.document == Document(status, a.nonces)
    && (var setting := if status.broadcast == Unset then FriendsOfFriends else status.broadcast;
        && a.session.value.read == (if cfg.readOverride == "" then cfg.readOf(setting) else cfg.readOverride)
        && a.session.value.join == (if cfg.joinOverride == "" then cfg.joinOf(setting) else cfg.joinOverride))
  }

  /** Whatever happened before, and whether or not it wrote, an `Announce` that succeeds leaves
      the remote session exactly as announced. */
  lemma AnnounceEstablishes(cfg: Config, ops: seq<Op>, status: Status, env: AnnounceEnv)
    ensures var r := Announce(cfg, true, Run(cfg, true, FRESH, ops), status, env);
            r.failure == None ==> Publishes(cfg, r.after, status)
  {
    CacheMatchesRemote(cfg, true, ops);
  }

  // ----- the announcer without its cache -----

  /** What an announcement does to the remote session, and how it fails, told from the remote session alone: `nonces` are those to publish
      in the document of the session there is. */
  datatype Remote = Remote(session: Option<Session>, failure: Option<Failure>)

  function WantedRead(cfg: Config, status: Status): string {
    if cfg.readOverride != "" then cfg.readOverride
    else cfg.readOf(if status.broadcast == Unset then FriendsOfFriends else status.broadcast)
  }

  function WantedJoin(cfg: Config, status: Status): string {
    if cfg.joinOverride != "" then cfg.joinOverride
    else cfg.joinOf(if status.broadcast == Unset then FriendsOfFriends else status.broadcast)
  }

  /** A new session, for which the nonces of the one before it are no use. */
  function Fresh(cfg: Config, status: Status, nonces: map<string, string>, env: AnnounceEnv): Remote {
    if !env.reencodes then Remote(None, Some(EncodeFailed))
    else if !cfg.hasClient then Remote(None, Some(NoClient))
    else if !env.publishes then Remote(None, Some(PublishFailed))
    else Remote(Some(Session(env.newId, Document(status, nonces), WantedRead(cfg, status), WantedJoin(cfg, status))), None)
  }

  function Announced(cfg: Config, before: Option<Session>, nonces: map<string, string>, status: Status, env: AnnounceEnv): Remote {
    if !env.encodes then Remote(before, Some(EncodeFailed))
    else match before
      case None => Fresh(cfg, status, nonces, env)
      case Some(s) =>
        var document := Document(status, nonces);
        if s.read == WantedRead(cfg, status) && s.join == WantedJoin(cfg, status) then
          if s.document == document then Remote(before, None)
          else if !env.reencodes then Remote(before, Some(EncodeFailed))
          else if !env.writes then Remote(before, Some(WriteFailed))
          else Remote(Some(s.(document := document)), None)
        else if !cfg.hasClient then Remote(before, Some(NoClient))
        else if !env.closes then Remote(before, Some(CloseFailed))
        else Fresh(cfg, status, map[], env)
  }

  /** After any history, an announcement does to the remote session, and fails, exactly as the remote session alone says: the cache makes
      no difference but to save the write of a document that is there already. */
  lemma AnnounceIsAnnounced(cfg: Config, ops: seq<Op>, status: Status, env: AnnounceEnv)
    ensures var a := Run(cfg, true, FRESH, ops);
            var r := Announce(cfg, true, a, status, env);
            Remote(r.after.session, r.failure) == Announced(cfg, a.session, a.nonces, status, env)
  {
    CacheMatchesRemote(cfg, true, ops);
  }

  /** An announcer that does not know the restrictions of the session it holds takes them from the session, if it reports them. */
  lemma AnnounceLearnsRestrictions(cfg: Config, a: Announcer, status: Status, env: AnnounceEnv)
    requires a.session.Some? && !env.encodes
    ensures var r := Announce(cfg, true, a, status, env);
            && r.failure == Some(EncodeFailed) && r.after.session == a.session
            && (a.read == "" && a.join == "" && env.properties ==> r.after.read == a.session.value.read && r.after.join == a.session.value.join)
            && (a.read != "" || a.join != "" || !env.properties ==> r.after == a)
  {}

  /** Hiding fails exactly if there is no session, or its document cannot be encoded or written, and leaves the session as it was
      then; otherwise the session's document is that of the last status made invite-only. */
  lemma HideIs(a: Announcer, encodes: bool, writes: bool)
    ensures var r := Hide(a, encodes, writes);
            if a.session.None? then r == Outcome(a, Some(NotPublished))
            else
              && r.failure == (if !encodes then Some(EncodeFailed) else if !writes then Some(WriteFailed) else None)
              && r.after.lastStatus == a.lastStatus.(broadcast := InviteOnly, joinability := JoinableByInvite)
              && (r.failure.Some? ==> r.after.session == a.session)
              && (r.failure.None? ==>
                    r.after.session == Some(a.session.value.(document := Document(r.after.lastStatus, a.nonces))))
  {}

  /** An `Announce` that fails leaves the remote session as it was, or closed. */
  lemma FailedAnnounceWritesNothing(cfg: Config, ops: seq<Op>, status: Status, env: AnnounceEnv)
    ensures var a := Run(cfg, true, FRESH, ops);
            var r := Announce(cfg, true, a, status, env);
            r.failure.Some? ==> r.after.session in {a.session, None}
  {}

  /** Skipping repeats is invisible: the announcer that always writes goes through the same states,
      remote document included, and never succeeds where the other fails. */
  lemma {:induction false} SuppressionIsInvisible(cfg: Config, ops: seq<Op>)
    ensures Run(cfg, true, FRESH, ops) == Run(cfg, false, FRESH, ops)
  {
    if ops != [] {
      SuppressionIsInvisible(cfg, ops[..|ops| - 1]);
      CacheMatchesRemote(cfg, true, ops[..|ops| - 1]);
      StepIsInvisible(cfg, Run(cfg, true, FRESH, ops[..|ops| - 1]), ops[|ops| - 1]);
    }
  }

  lemma StepIsInvisible(cfg: Config, a: Announcer, op: Op)
    requires Coherent(a)
    ensures Apply(cfg, true, a, op).after == Apply(cfg, false, a, op).after
    ensures Apply(cfg, false, a, op).failure == None ==> Apply(cfg, true, a, op).failure == None
  {}

  // ----- nonces -----

  /** After a sync without error the nonces name exactly the active members, a member that stays keeps
      its nonce, and the sync reports a change exactly when there is one. */
  lemma SyncNamesActiveMembers(nonces: map<string, string>, active: set<string>, drawn: map<string, string>)
    ensures var s := SyncNonces(nonces, active, drawn);
            && s.nonces.Keys <= active
            && (s.ok <==> s.nonces.Keys == active)
            && (s.ok ==> (s.changed <==> s.nonces != nonces))
            && forall x | x in active && x in nonces :: x in s.nonces && s.nonces[x] == nonces[x]
  {}

  /** Who counts as an active member: a name that some member trims to, not empty and not the bot's own. */
  lemma ActiveMemberIff(members: seq<string>, owner: string, x: string)
    ensures x in ActiveMembers(members, owner) <==>
            x != "" && x != OfferText.TrimSpace(owner) && exists m | m in members :: OfferText.TrimSpace(m) == x
  {}

  /** An update that succeeds for the announcer's own session leaves nonces for exactly the members other than the bot. */
  lemma UpdateNamesTheMembers(cfg: Config, a: Announcer, op: Op, x: string)
    requires op.NoncesOp? && a.session.Some? && a.session.value.id == op.session
    requires Apply(cfg, true, a, op).failure == None
    ensures x in Apply(cfg, true, a, op).after.nonces <==>
            x != "" && x != OfferText.TrimSpace(cfg.owner) && exists m | m in op.members :: OfferText.TrimSpace(m) == x
  {
    ActiveMemberIff(op.members, cfg.owner, x);
    SyncNamesActiveMembers(a.nonces, ActiveMembers(op.members, cfg.owner), op.drawn);
  }

  /** The remote document is the encoding of the last status and the current nonces. */
  ghost predicate InSync(a: Announcer) { a.custom == Some(Document(a.lastStatus, a.nonces)) }

  /** `UpdateNonces` skips its write when the nonces are unchanged, without asking whether their last
      write went through. So its success puts the document in sync exactly when the nonces
      change or the document was in sync already. */
  lemma NonceUpdateSyncsIff(cfg: Config, a: Announcer, op: Op)
    requires op.NoncesOp? && a.session.Some? && a.session.value.id == op.session
    requires Apply(cfg, true, a, op).failure == None
    ensures InSync(Apply(cfg, true, a, op).after) <==>
            SyncNonces(a.nonces, ActiveMembers(op.members, cfg.owner), op.drawn).changed || InSync(a)
  {
    SyncNamesActiveMembers(a.nonces, ActiveMembers(op.members, cfg.owner), op.drawn);
  }

  /** When the write of changed nonces fails, the next update for the same members
      succeeds without writing, and the remote session keeps its old document. */
  lemma {:induction false} FailedNonceWriteStaysBehind(cfg: Config, a: Announcer, first: Op, second: Op)
    requires Coherent(a) && a.session.Some? && InSync(a)
    requires first.NoncesOp? && second.NoncesOp? && first.session == second.session == a.session.value.id
    requires ActiveMembers(first.members, cfg.owner) == ActiveMembers(second.members, cfg.owner)
    requires Apply(cfg, true, a, first).failure == Some(WriteFailed)
    ensures var r := Apply(cfg, true, Apply(cfg, true, a, first).after, second);
            r.failure == None && r.after.session == a.session && !InSync(r.after)
  {
    var active := ActiveMembers(first.members, cfg.owner);
    SyncNamesActiveMembers(a.nonces, active, first.drawn);
    var now := SyncNonces(a.nonces, active, first.drawn).nonces;
    SecondSyncIsIdle(now, active, second.drawn);
  }

  lemma SecondSyncIsIdle(nonces: map<string, string>, active: set<string>, drawn: map<string, string>)
    requires nonces.Keys == active
    ensures SyncNonces(nonces, active, drawn) == Synced(nonces, false, true)
  {
    SyncNamesActiveMembers(nonces, active, drawn);
    assert SyncNonces(nonces, active, drawn).nonces == nonces;
  }

  /** This happens: a fresh announcer publishes, one member joins, and the write of their nonce fails. */
  lemma {:induction false} NonceUpdateCanStayBehind(cfg: Config, status: Status)
    requires cfg.hasClient && cfg.owner == "bot"
    ensures var a := Run(cfg, true, FRESH, [AnnounceOp(status, AnnounceEnv(true, true, true, true, true, 7, true))]);
            var first := NoncesOp(7, ["ann"], map["ann" := "n1"], true, false);
            var second := NoncesOp(7, ["ann"], map["ann" := "n2"], true, true);
            var r := Apply(cfg, true, Apply(cfg, true, a, first).after, second);
            r.failure == None && r.after.session == a.session && !InSync(r.after)
  {
    var a := Run(cfg, true, FRESH, [AnnounceOp(status, AnnounceEnv(true, true, true, true, true, 7, true))]);
    FirstAnnounce(cfg, status);
    OneActiveMember();
    SyncNamesActiveMembers(map[], {"ann"}, map["ann" := "n1"]);
    FailedNonceWriteStaysBehind(cfg, a, NoncesOp(7, ["ann"], map["ann" := "n1"], true, false),
                                NoncesOp(7, ["ann"], map["ann" := "n2"], true, true));
  }

  lemma {:induction false} FirstAnnounce(cfg: Config, status: Status)
    requires cfg.hasClient
    ensures var a := Run(cfg, true, FRESH, [AnnounceOp(status, AnnounceEnv(true, true, true, true, true, 7, true))]);
            a.session.Some? && a.session.value.id == 7 && a.nonces == map[] && InSync(a)
  {
    var op := AnnounceOp(status, AnnounceEnv(true, true, true, true, true, 7, true));
    assert [op][..0] == [] && Run(cfg, true, FRESH, [op]) == Apply(cfg, true, FRESH, op).after;
  }

  lemma OneActiveMember()
    ensures ActiveMembers(["ann"], "bot") == {"ann"}
  {
    assert OfferText.TrimSpace("ann") == "ann";
    assert OfferText.TrimSpace("bot") == "bot";
    assert "ann" in ["ann"];
    assert "ann"[0] != "bot"[0];
  }

  ghost predicate AllSucceed(cfg: Config, ops: seq<Op>) {
    forall i: nat | i < |ops| :: Apply(cfg, true, Run(cfg, true, FRESH, ops[..i]), ops[i]).failure == None
  }

  /** Only a failure lets the remote document fall behind. */
  lemma {:induction false} NoFailureNoDrift(cfg: Config, ops: seq<Op>)
    requires AllSucceed(cfg, ops)
    ensures var a := Run(cfg, true, FRESH, ops); a.session.Some? ==> InSync(a)
  {
    if ops != [] {
      var n := |ops| - 1;
      var front := ops[..n];
      assert forall i: nat | i < n :: front[..i] == ops[..i];
      NoFailureNoDrift(cfg, front);
      CacheMatchesRemote(cfg, true, front);
      assert Apply(cfg, true, Run(cfg, true, FRESH, ops[..n]), ops[n]).failure == None;
      SuccessStaysInSync(cfg, Run(cfg, true, FRESH, front), ops[n]);
    }
  }

  lemma SuccessStaysInSync(cfg: Config, a: Announcer, op: Op)
    requires Coherent(a) && (a.session.Some? ==> InSync(a))
    requires Apply(cfg, true, a, op).failure == None
    ensures var r := Apply(cfg, true, a, op).after; r.session.Some? ==> InSync(r)
  {
    if op.NoncesOp? && a.session.Some? && a.session.value.id == op.session {
      NonceUpdateSyncsIff(cfg, a, op);
    }
  }

  // ----- a hidden session stays hidden -----

  ghost predicate StaysHidden(a: Announcer) {
    a.session.Some? && IsHidden(a.session.value.document) && IsHidden(Document(a.lastStatus, a.nonces))
  }

  lemma HideHides(a: Announcer, encodes: bool, writes: bool)
    ensures var r := Hide(a, encodes, writes); r.failure == None ==> StaysHidden(r.after)
  {}

  /** Once hidden, and for as long as it is not announced again, every document the session gets is invite-only. */
  lemma {:induction false} HiddenStaysHidden(cfg: Config, a: Announcer, ops: seq<Op>)
    requires StaysHidden(a)
    requires forall op | op in ops :: !op.AnnounceOp?
    ensures StaysHidden(Run(cfg, true, a, ops))
    ensures Run(cfg, true, a, ops).session.value.id == a.session.value.id
  {
    if ops != [] {
      HiddenStaysHidden(cfg, a, ops[..|ops| - 1]);
      assert ops[|ops| - 1] in ops;
    }
  }
}
