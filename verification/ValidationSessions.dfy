/** Validation sessions: two linked tables, expiry, clean-up, and what must have happened before a bind. */
module ValidationSessions {
  import opened Common

  /** 24 hours, both for validating a session and for using it afterwards. */
  const SESSION_LIFETIME_MS: int := 24 * 60 * 60 * 1000

  datatype Session = Session(tp: Threepid, clientSecret: string, validated: bool, mtime: int)

  datatype TokenRow = TokenRow(session: nat, token: string)

  /** threepid_validation_sessions by id, and threepid_token_auths. */
  datatype Tables = Tables(sessions: map<nat, Session>, tokens: seq<TokenRow>)

  datatype Outcome = Ok | InvalidSessionId | IncorrectClientSecret | SessionExpired | SessionNotValidated | IncorrectToken

  // ---------------------------------------------------------------- queries

  predicate JoinsFor(db: Tables, t: TokenRow, tp: Threepid, clientSecret: string) {
    t.session in db.sessions && db.sessions[t.session].tp == tp && db.sessions[t.session].clientSecret == clientSecret
  }

  /** The first row of the join for an identifier and secret. */
  function FindSession(db: Tables, tokens: seq<TokenRow>, tp: Threepid, clientSecret: string): (found: Option<TokenRow>)
    ensures found.Some? ==> found.value in tokens && JoinsFor(db, found.value, tp, clientSecret)
    ensures found.None? ==> forall t | t in tokens :: !JoinsFor(db, t, tp, clientSecret)
  {
    if tokens == [] then None
    else if JoinsFor(db, tokens[0], tp, clientSecret) then Some(tokens[0])
    else FindSession(db, tokens[1..], tp, clientSecret)
  }

  function TokenOf(tokens: seq<TokenRow>, sid: nat): (token: Option<string>)
    ensures token.Some? ==> TokenRow(sid, token.value) in tokens
    ensures token.None? ==> forall t | t in tokens :: t.session != sid
  {
    if tokens == [] then None
    else if tokens[0].session == sid then Some(tokens[0].token)
    else TokenOf(tokens[1..], sid)
  }

  /** The first token row of the session holds the token. */
  predicate FirstToken(tokens: seq<TokenRow>, sid: nat, token: string) {
    exists k | 0 <= k < |tokens| :: tokens[k] == TokenRow(sid, token) && forall i | 0 <= i < k :: tokens[i].session != sid
  }

  lemma {:induction false} TokenIsFirst(tokens: seq<TokenRow>, sid: nat, token: string)
    ensures TokenOf(tokens, sid) == Some(token) <==> FirstToken(tokens, sid, token)
  {
    if tokens != [] {
      TokenIsFirst(tokens[1..], sid, token);
      FirstTokenLater(tokens, sid, token);
      hide FirstToken;
    }
  }

  lemma FirstTokenLater(tokens: seq<TokenRow>, sid: nat, token: string)
    requires tokens != []
    ensures FirstToken(tokens, sid, token) <==>
            if tokens[0].session == sid then tokens[0].token == token else FirstToken(tokens[1..], sid, token)
  {
    var rest := tokens[1..];
    assert forall i | 0 <= i < |rest| :: rest[i] == tokens[i + 1];
    if tokens[0].session != sid && FirstToken(rest, sid, token) {
      var k :| 0 <= k < |rest| && rest[k] == TokenRow(sid, token) && forall i | 0 <= i < k :: rest[i].session != sid;
      assert tokens[k + 1] == TokenRow(sid, token);
      assert forall i | 0 < i < k + 1 :: tokens[i] == rest[i - 1];
    }
    if tokens[0].session != sid && FirstToken(tokens, sid, token) {
      var k :| 0 <= k < |tokens| && tokens[k] == TokenRow(sid, token) && forall i | 0 <= i < k :: tokens[i].session != sid;
      assert rest[k - 1] == TokenRow(sid, token);
    }
    if tokens[0] == TokenRow(sid, token) { assert FirstToken(tokens, sid, token); }
  }

  /** What each outcome of a submission means for the tables. */
  lemma SubmitOutcomeMeans(db: Tables, sid: nat, clientSecret: string, token: string, now: int)
    ensures var outcome := SubmitOutcome(db, sid, clientSecret, token, now);
            var known := sid in db.sessions && exists t | t in db.tokens :: t.session == sid;
            var right := known && db.sessions[sid].clientSecret == clientSecret;
            var timely := right && now <= db.sessions[sid].mtime + 24 * 60 * 60 * 1000;
            && (outcome == InvalidSessionId <==> !known)
            && (outcome == IncorrectClientSecret <==> known && !right)
            && (outcome == SessionExpired <==> right && !timely)
            && (outcome == IncorrectToken <==> timely && !FirstToken(db.tokens, sid, token))
            && (outcome == Ok <==> timely && FirstToken(db.tokens, sid, token))
  {
    hide TokenOf, FirstToken;
    TokenIsFirst(db.tokens, sid, token);
  }

  /** What each outcome of a use means. */
  lemma UseOutcomeMeans(db: Tables, sid: nat, clientSecret: string, now: int)
    ensures var outcome := UseOutcome(db, sid, clientSecret, now);
            var right := sid in db.sessions && db.sessions[sid].clientSecret == clientSecret;
            var timely := right && now <= db.sessions[sid].mtime + 24 * 60 * 60 * 1000;
            && (outcome == InvalidSessionId <==> sid !in db.sessions)
            && (outcome == IncorrectClientSecret <==> sid in db.sessions && !right)
            && (outcome == SessionExpired <==> right && !timely)
            && (outcome == SessionNotValidated <==> timely && !db.sessions[sid].validated)
            && (outcome == Ok <==> timely && db.sessions[sid].validated)
  {
  }

  predicate Expired(s: Session, now: int) {
    s.mtime + SESSION_LIFETIME_MS < now
  }

  /** The checks of validateSessionWithToken, in their order. */
  function SubmitOutcome(db: Tables, sid: nat, clientSecret: string, token: string, now: int): Outcome {
    if sid !in db.sessions || TokenOf(db.tokens, sid).None? then InvalidSessionId
    else if db.sessions[sid].clientSecret != clientSecret then IncorrectClientSecret
    else if Expired(db.sessions[sid], now) then SessionExpired
    else if TokenOf(db.tokens, sid) != Some(token) then IncorrectToken
    else Ok
  }

  /** The checks of getValidatedSession, in their order. */
  function UseOutcome(db: Tables, sid: nat, clientSecret: string, now: int): Outcome {
    if sid !in db.sessions then InvalidSessionId
    else if db.sessions[sid].clientSecret != clientSecret then IncorrectClientSecret
    else if Expired(db.sessions[sid], now) then SessionExpired
    else if !db.sessions[sid].validated then SessionNotValidated
    else Ok
  }

  // ---------------------------------------------------------------- updates

  function SetMtime(db: Tables, sid: nat, now: int): Tables {
    if sid in db.sessions then db.(sessions := db.sessions[sid := db.sessions[sid].(mtime := now)]) else db
  }

  function SetValidated(db: Tables, sid: nat): Tables {
    if sid in db.sessions then db.(sessions := db.sessions[sid := db.sessions[sid].(validated := true)]) else db
  }

  function NewSession(db: Tables, tp: Threepid, clientSecret: string, sid: nat, token: string, now: int): Tables {
    Tables(db.sessions[sid := Session(tp, clientSecret, false, now)], db.tokens + [TokenRow(sid, token)])
  }

  /** Sessions untouched for five lifetimes. */
  function Stale(db: Tables, now: int): set<nat> {
    set sid | sid in db.sessions && db.sessions[sid].mtime < now - 5 * SESSION_LIFETIME_MS
  }

  function KeepTokens(tokens: seq<TokenRow>, sids: set<nat>): (kept: seq<TokenRow>)
    ensures forall t :: t in kept <==> t in tokens && t.session in sids
  {
    if tokens == [] then []
    else if tokens[0].session in sids then [tokens[0]] + KeepTokens(tokens[1..], sids)
    else KeepTokens(tokens[1..], sids)
  }

  function DeleteOld(db: Tables, now: int): Tables {
    var left := db.sessions - Stale(db, now);
    Tables(left, KeepTokens(db.tokens, left.Keys))
  }

  // -------------------------------------------------------------- the store

  predicate OneTokenEach(tokens: seq<TokenRow>) {
    forall i, j | 0 <= i < j < |tokens| :: tokens[i].session != tokens[j].session
  }

  /** Each session has one token row, each token row its session, and no two sessions are for the same
      identifier and client secret. */
  ghost predicate OneToOne(db: Tables) {
    && OneTokenEach(db.tokens)
    && (forall t | t in db.tokens :: t.session in db.sessions)
    && (forall sid {:trigger TokenOf(db.tokens, sid)} | sid in db.sessions :: TokenOf(db.tokens, sid).Some?)
    && (forall a, b | a in db.sessions && b in db.sessions && db.sessions[a].tp == db.sessions[b].tp
                      && db.sessions[a].clientSecret == db.sessions[b].clientSecret :: a == b)
  }

  class ThreePidValSessionStore {
    var db: Tables

    constructor ()
      ensures db == Tables(map[], []) && OneToOne(db)
    {
      db := Tables(map[], []);
    }

    /** The existing session for this identifier and secret, or a new one under a random id. Drawing an id that
        is taken is an integrity error, and nothing is written. */
    method GetOrCreateTokenSession(tp: Threepid, clientSecret: string, randomSid: nat, randomToken: string, now: int)
        returns (row: Option<TokenRow>)
      modifies this
      ensures var found := FindSession(old(db), old(db).tokens, tp, clientSecret);
              if found.Some? then row == found && db == old(db)
              else if randomSid in old(db).sessions then row == None && db == old(db)
              else row == Some(TokenRow(randomSid, randomToken))
                   && db == NewSession(old(db), tp, clientSecret, randomSid, randomToken, now)
    {
      row := FindSession(db, db.tokens, tp, clientSecret);
      if row.None? && randomSid !in db.sessions {
        db := db.(sessions := db.sessions[randomSid := Session(tp, clientSecret, false, now)]);
        db := db.(tokens := db.tokens + [TokenRow(randomSid, randomToken)]);
        row := Some(TokenRow(randomSid, randomToken));
      }
    }

    /** Only the right secret and the right token, in time, set the validated flag. */
    method ValidateSessionWithToken(sid: nat, clientSecret: string, token: string, now: int) returns (outcome: Outcome)
      modifies this
      ensures outcome == SubmitOutcome(old(db), sid, clientSecret, token, now)
      ensures db == if outcome == Ok then SetValidated(old(db), sid) else old(db)
      ensures outcome == Ok <==>
                && sid in old(db).sessions && FirstToken(old(db).tokens, sid, token)
                && old(db).sessions[sid].clientSecret == clientSecret
                && now <= old(db).sessions[sid].mtime + 24 * 60 * 60 * 1000
      ensures outcome == Ok ==>
                && db.tokens == old(db).tokens
                && db.sessions == old(db).sessions[sid := old(db).sessions[sid].(validated := true)]
    {
      TokenIsFirst(db.tokens, sid, token);
      var issued := TokenOf(db.tokens, sid);
      if sid !in db.sessions || issued.None? {
        return InvalidSessionId;
      }
      var session := db.sessions[sid];
      if clientSecret != session.clientSecret {
        return IncorrectClientSecret;
      }
      if session.mtime + SESSION_LIFETIME_MS < now {
        return SessionExpired;
      }
      if issued.value != token {
        return IncorrectToken;
      }
      db := SetValidated(db, sid);
      return Ok;
    }

    method GetValidatedSession(sid: nat, clientSecret: string, now: int) returns (outcome: Outcome, session: Option<Session>)
      ensures outcome == UseOutcome(db, sid, clientSecret, now)
      ensures outcome == Ok <==>
                && sid in db.sessions && db.sessions[sid].clientSecret == clientSecret && db.sessions[sid].validated
                && now <= db.sessions[sid].mtime + 24 * 60 * 60 * 1000
      ensures outcome == Ok ==>
                && session.Some? && sid in db.sessions && session.value == db.sessions[sid]
                && session.value.clientSecret == clientSecret && session.value.validated
                && now <= session.value.mtime + SESSION_LIFETIME_MS
      ensures outcome != Ok ==> session == None
    {
      if sid !in db.sessions {
        return InvalidSessionId, None;
      }
      var s := db.sessions[sid];
      if s.clientSecret != clientSecret {
        return IncorrectClientSecret, None;
      }
      if s.mtime + SESSION_LIFETIME_MS < now {
        return SessionExpired, None;
      }
      if !s.validated {
        return SessionNotValidated, None;
      }
      return Ok, Some(s);
    }

    /** Old sessions go first, then every token row without a session. */
    method DeleteOldSessions(now: int)
      modifies this
      ensures db == DeleteOld(old(db), now)
      ensures OneToOne(old(db)) ==> OneToOne(db)
      ensures forall sid | sid in old(db).sessions ::
                sid in db.sessions <==> old(db).sessions[sid].mtime >= now - 5 * 24 * 60 * 60 * 1000
      ensures forall t :: t in db.tokens <==> t in old(db).tokens && t.session in db.sessions
    {
      if OneToOne(db) { DeleteOldOneToOne(db, now); }
      db := db.(sessions := db.sessions - Stale(db, now));
      db := db.(tokens := KeepTokens(db.tokens, db.sessions.Keys));
    }
  }

  lemma {:induction false} KeepTokensDistinct(tokens: seq<TokenRow>, sids: set<nat>)
    requires OneTokenEach(tokens)
    ensures OneTokenEach(KeepTokens(tokens, sids))
  {
    if tokens != [] {
      KeepTokensDistinct(tokens[1..], sids);
      var kept := KeepTokens(tokens[1..], sids);
      forall t | t in kept
        ensures t.session != tokens[0].session
      {
        var k :| 0 <= k < |tokens[1..]| && tokens[1..][k] == t;
        assert tokens[k + 1] == t;
      }
      assert forall i | 0 <= i < |kept| :: kept[i] in kept;
    }
  }

  lemma {:induction false} KeepTokensOf(tokens: seq<TokenRow>, sids: set<nat>, sid: nat)
    requires sid in sids
    ensures TokenOf(KeepTokens(tokens, sids), sid) == TokenOf(tokens, sid)
  {
    if tokens != [] { KeepTokensOf(tokens[1..], sids, sid); }
  }

  lemma DeleteOldOneToOne(db: Tables, now: int)
    requires OneToOne(db)
    ensures OneToOne(DeleteOld(db, now))
  {
    hide TokenOf, KeepTokens;
    var left := (db.sessions - Stale(db, now)).Keys;
    KeepTokensDistinct(db.tokens, left);
    forall sid | sid in left
      ensures TokenOf(KeepTokens(db.tokens, left), sid).Some?
    {
      KeepTokensOf(db.tokens, left, sid);
    }
    var db' := DeleteOld(db, now);
    assert db'.sessions.Keys == left && db'.tokens == KeepTokens(db.tokens, left);
    assert forall a | a in db'.sessions :: a in db.sessions && db'.sessions[a] == db.sessions[a];
  }

  lemma {:induction false} TokenOfAppend(tokens: seq<TokenRow>, t: TokenRow, sid: nat)
    ensures TokenOf(tokens + [t], sid) ==
            if TokenOf(tokens, sid).Some? then TokenOf(tokens, sid) else if t.session == sid then Some(t.token) else None
  {
    if tokens != [] {
      assert (tokens + [t])[1..] == tokens[1..] + [t];
      TokenOfAppend(tokens[1..], t, sid);
    }
  }

  lemma NewSessionOneToOne(db: Tables, tp: Threepid, clientSecret: string, sid: nat, token: string, now: int)
    requires OneToOne(db) && FindSession(db, db.tokens, tp, clientSecret).None? && sid !in db.sessions
    ensures var db' := NewSession(db, tp, clientSecret, sid, token, now);
            OneToOne(db') && TokenOf(db'.tokens, sid) == Some(token)
            && forall a | a in db.sessions :: TokenOf(db'.tokens, a) == TokenOf(db.tokens, a)
  {
    hide TokenOf, FindSession;
    var db' := NewSession(db, tp, clientSecret, sid, token, now);
    forall a | a in db'.sessions
      ensures TokenOf(db'.tokens, a) == if a == sid then Some(token) else TokenOf(db.tokens, a)
    {
      TokenOfAppend(db.tokens, TokenRow(sid, token), a);
      assert a == sid ==> TokenOf(db.tokens, a).None?;
    }
    forall a | a in db.sessions
      ensures db.sessions[a].tp != tp || db.sessions[a].clientSecret != clientSecret
    {
      assert TokenOf(db.tokens, a).Some?;
      var t := TokenRow(a, TokenOf(db.tokens, a).value);
      assert t in db.tokens && !JoinsFor(db, t, tp, clientSecret);
    }
  }

  lemma SameKeysOneToOne(db: Tables, db': Tables)
    requires OneToOne(db) && db'.tokens == db.tokens && db'.sessions.Keys == db.sessions.Keys
    requires forall a | a in db.sessions ::
               db'.sessions[a].tp == db.sessions[a].tp && db'.sessions[a].clientSecret == db.sessions[a].clientSecret
    ensures OneToOne(db')
  {
  }

  /** In one-to-one tables the join finds the session, and its one token. */
  lemma FindUnique(db: Tables, sid: nat)
    requires OneToOne(db) && sid in db.sessions
    ensures var s := db.sessions[sid];
            TokenOf(db.tokens, sid).Some? &&
            FindSession(db, db.tokens, s.tp, s.clientSecret) == Some(TokenRow(sid, TokenOf(db.tokens, sid).value))
  {
    var s := db.sessions[sid];
    assert TokenOf(db.tokens, sid).Some?;
    var t := TokenRow(sid, TokenOf(db.tokens, sid).value);
    assert t in db.tokens && JoinsFor(db, t, s.tp, s.clientSecret);
    var found := FindSession(db, db.tokens, s.tp, s.clientSecret).value;
    assert found.session == sid;
    var i :| 0 <= i < |db.tokens| && db.tokens[i] == t;
    var j :| 0 <= j < |db.tokens| && db.tokens[j] == found;
  }
}
