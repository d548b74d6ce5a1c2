/** Whole runs of token requests, submissions, binds and clean-ups, with the record of what took effect. */
module SessionRuns {
  import opened Common
  import opened ValidationSessions

  datatype Event =
    | Issued(sid: nat, tp: Threepid, clientSecret: string, token: string)
    | Touched(sid: nat, now: int)
    | Validated(sid: nat, clientSecret: string, token: string, now: int)
    | Bound(sid: nat, clientSecret: string, tp: Threepid, mxid: string, now: int)
    | Removed(sids: set<nat>)

  /** Positions in the record: a session's creation, its latest token request, and, once validated, the
      submission together with the token request that was the latest then. */
  datatype Meta = Meta(born: nat, touched: nat, proof: Option<Proof>)
  datatype Proof = Proof(touched: nat, submitted: nat)

  datatype State = State(db: Tables, record: seq<Event>, meta: map<nat, Meta>)

  datatype Step =
    | Request(tp: Threepid, clientSecret: string, randomSid: nat, randomToken: string, now: int)
    | Submit(sid: nat, clientSecret: string, token: string, now: int)
    | PublicBind(sid: nat, clientSecret: string, mxid: string, now: int)
    | Cleanup(now: int)

  /** requestToken finds or creates the session, then sets its mtime; validated stays as it is. */
  function RequestToken(s: State, step: Step): State
    requires step.Request?
  {
    var Request(tp, clientSecret, sid, token, now) := step;
    var n := |s.record|;
    match FindSession(s.db, s.db.tokens, tp, clientSecret)
    case Some(row) =>
      State(SetMtime(s.db, row.session, now), s.record + [Touched(row.session, now)],
            if row.session in s.meta then s.meta[row.session := s.meta[row.session].(touched := n)] else s.meta)
    case None =>
      if sid in s.db.sessions then s
      else State(NewSession(s.db, tp, clientSecret, sid, token, now),
                 s.record + [Issued(sid, tp, clientSecret, token), Touched(sid, now)],
                 s.meta[sid := Meta(n, n + 1, None)])
  }

  function Next(s: State, step: Step): State {
    match step
    case Request(_, _, _, _, _) => RequestToken(s, step)
    case Submit(sid, clientSecret, token, now) =>
      if SubmitOutcome(s.db, sid, clientSecret, token, now) == Ok
      then State(SetValidated(s.db, sid), s.record + [Validated(sid, clientSecret, token, now)],
                 if sid in s.meta
                 then s.meta[sid := s.meta[sid].(proof := Some(Proof(s.meta[sid].touched, |s.record|)))] else s.meta)
      else s
    case PublicBind(sid, clientSecret, mxid, now) =>
      if UseOutcome(s.db, sid, clientSecret, now) == Ok
      then s.(record := s.record + [Bound(sid, clientSecret, s.db.sessions[sid].tp, mxid, now)])
      else s
    case Cleanup(now) =>
      State(DeleteOld(s.db, now), s.record + [Removed(Stale(s.db, now))], s.meta - Stale(s.db, now))
  }

  function Run(s: State, steps: seq<Step>): State {
    if steps == [] then s else Next(Run(s, steps[..|steps| - 1]), steps[|steps| - 1])
  }

  const EMPTY := State(Tables(map[], []), [], map[])

  // -------------------------------------------------------- what is recorded

  /** Between the two positions the session row is neither removed nor created again. */
  predicate SameRow(record: seq<Event>, sid: nat, from: nat, to: nat) {
    forall i | from < i < to <= |record| ::
      !(record[i].Removed? && sid in record[i].sids) && !(record[i].Issued? && record[i].sid == sid)
  }

  /** Position k is the latest token request for the session before position `to`. */
  predicate LatestTouch(record: seq<Event>, sid: nat, k: nat, to: nat) {
    && k < to <= |record| && record[k].Touched? && record[k].sid == sid
    && forall i | k < i < to :: !(record[i].Touched? && record[i].sid == sid)
  }

  /** At position v the issued token was submitted with the right secret, in time. */
  predicate Proves(record: seq<Event>, sid: nat, clientSecret: string, token: string, born: nat, k: nat, v: nat) {
    && born < k < v < |record|
    && record[v].Validated? && record[v].sid == sid && record[v].clientSecret == clientSecret && record[v].token == token
    && LatestTouch(record, sid, k, v)
    && record[v].now <= record[k].now + 24 * 60 * 60 * 1000
  }

  /** The bind at position e rests on the session created at `born`, validated at v, last requested at r. */
  predicate BindRestsOn(record: seq<Event>, e: nat, born: nat, k: nat, v: nat, r: nat) {
    && e < |record| && record[e].Bound? && v < e && born < e
    && record[born].Issued? && record[born].sid == record[e].sid && record[born].tp == record[e].tp
    && record[born].clientSecret == record[e].clientSecret
    && SameRow(record, record[e].sid, born, e)
    && Proves(record, record[e].sid, record[e].clientSecret, record[born].token, born, k, v)
    && LatestTouch(record, record[e].sid, r, e)
    && record[e].now <= record[r].now + 24 * 60 * 60 * 1000
  }

  predicate MetaOk(record: seq<Event>, sid: nat, s: Session, token: Option<string>, m: Meta) {
    && token.Some? && m.born < m.touched < |record|
    && record[m.born] == Issued(sid, s.tp, s.clientSecret, token.value)
    && SameRow(record, sid, m.born, |record|)
    && LatestTouch(record, sid, m.touched, |record|) && record[m.touched].now == s.mtime
    && (s.validated ==>
          && m.proof.Some?
          && Proves(record, sid, s.clientSecret, token.value, m.born, m.proof.value.touched, m.proof.value.submitted))
  }

  ghost predicate BindsJustified(record: seq<Event>) {
    forall e | 0 <= e < |record| && record[e].Bound? :: exists born, k, v, r :: BindRestsOn(record, e, born, k, v, r)
  }

  ghost predicate Inv(s: State) {
    && OneToOne(s.db) && s.meta.Keys == s.db.sessions.Keys
    && (forall sid | sid in s.db.sessions ::
          MetaOk(s.record, sid, s.db.sessions[sid], TokenOf(s.db.tokens, sid), s.meta[sid]))
    && BindsJustified(s.record)
  }

  predicate Quiet(e: Event, sid: nat) {
    match e
    case Issued(x, _, _, _) => x != sid
    case Touched(x, _) => x != sid
    case Removed(xs) => sid !in xs
    case _ => true
  }

  lemma MetaKept(record: seq<Event>, e: Event, sid: nat, s: Session, token: Option<string>, m: Meta)
    requires MetaOk(record, sid, s, token, m) && Quiet(e, sid)
    ensures MetaOk(record + [e], sid, s, token, m)
  {
  }

  lemma BindsKept(record: seq<Event>, e: Event)
    requires BindsJustified(record) && !e.Bound?
    ensures BindsJustified(record + [e])
  {
    forall i | 0 <= i < |record + [e]| && (record + [e])[i].Bound?
      ensures exists born, k, v, r :: BindRestsOn(record + [e], i, born, k, v, r)
    {
      var born, k, v, r :| BindRestsOn(record, i, born, k, v, r);
      BindKept(record, e, i, born, k, v, r);
    }
  }

  lemma BindKept(record: seq<Event>, e: Event, i: nat, born: nat, k: nat, v: nat, r: nat)
    requires BindRestsOn(record, i, born, k, v, r)
    ensures BindRestsOn(record + [e], i, born, k, v, r)
  {
  }

  lemma TouchedAgain(record: seq<Event>, sid: nat, s: Session, token: Option<string>, m: Meta, now: int)
    requires MetaOk(record, sid, s, token, m)
    ensures MetaOk(record + [Touched(sid, now)], sid, s.(mtime := now), token, m.(touched := |record|))
  {
  }

  lemma RequestExistingInv(s: State, step: Step)
    requires Inv(s) && step.Request? && FindSession(s.db, s.db.tokens, step.tp, step.clientSecret).Some?
    ensures Inv(Next(s, step))
  {
    hide TokenOf, FindSession, MetaOk, BindsJustified;
    var id := FindSession(s.db, s.db.tokens, step.tp, step.clientSecret).value.session;
    var s' := Next(s, step);
    SameKeysOneToOne(s.db, s'.db);
    BindsKept(s.record, Touched(id, step.now));
    forall sid | sid in s'.db.sessions
      ensures MetaOk(s'.record, sid, s'.db.sessions[sid], TokenOf(s'.db.tokens, sid), s'.meta[sid])
    {
      if sid == id {
        TouchedAgain(s.record, sid, s.db.sessions[sid], TokenOf(s.db.tokens, sid), s.meta[sid], step.now);
      } else {
        MetaKept(s.record, Touched(id, step.now), sid, s.db.sessions[sid], TokenOf(s.db.tokens, sid), s.meta[sid]);
      }
    }
  }

  lemma RequestNewInv(s: State, step: Step)
    requires Inv(s) && step.Request? && FindSession(s.db, s.db.tokens, step.tp, step.clientSecret).None?
    requires step.randomSid !in s.db.sessions
    ensures Inv(Next(s, step))
  {
    hide TokenOf, FindSession, MetaOk, BindsJustified;
    var Request(tp, clientSecret, id, token, now) := step;
    var s' := Next(s, step);
    var born, touch := Issued(id, tp, clientSecret, token), Touched(id, now);
    NewSessionOneToOne(s.db, tp, clientSecret, id, token, now);
    assert s'.record == s.record + [born] + [touch];
    BindsKept(s.record, born);
    BindsKept(s.record + [born], touch);
    forall sid | sid in s'.db.sessions
      ensures MetaOk(s'.record, sid, s'.db.sessions[sid], TokenOf(s'.db.tokens, sid), s'.meta[sid])
    {
      if sid == id {
        NewMetaOk(s.record, id, tp, clientSecret, token, now);
      } else {
        var t := TokenOf(s.db.tokens, sid);
        MetaKept(s.record, born, sid, s.db.sessions[sid], t, s.meta[sid]);
        MetaKept(s.record + [born], touch, sid, s.db.sessions[sid], t, s.meta[sid]);
      }
    }
  }

  lemma NewMetaOk(record: seq<Event>, sid: nat, tp: Threepid, clientSecret: string, token: string, now: int)
    ensures MetaOk(record + [Issued(sid, tp, clientSecret, token)] + [Touched(sid, now)], sid,
                   Session(tp, clientSecret, false, now), Some(token), Meta(|record|, |record| + 1, None))
  {
  }

  lemma SubmittedOk(record: seq<Event>, sid: nat, s: Session, token: string, m: Meta, now: int)
    requires MetaOk(record, sid, s, Some(token), m) && !Expired(s, now)
    ensures MetaOk(record + [Validated(sid, s.clientSecret, token, now)], sid, s.(validated := true), Some(token),
                   m.(proof := Some(Proof(m.touched, |record|))))
  {
    MetaKept(record, Validated(sid, s.clientSecret, token, now), sid, s, Some(token), m);
    var record' := record + [Validated(sid, s.clientSecret, token, now)];
    assert LatestTouch(record', sid, m.touched, |record|);
  }

  lemma SubmitInv(s: State, step: Step)
    requires Inv(s) && step.Submit?
    ensures Inv(Next(s, step))
  {
    hide TokenOf, FindSession, MetaOk, BindsJustified;
    var Submit(id, clientSecret, token, now) := step;
    var s' := Next(s, step);
    if s' != s {
      var e := Validated(id, clientSecret, token, now);
      SameKeysOneToOne(s.db, s'.db);
      BindsKept(s.record, e);
      forall sid | sid in s'.db.sessions
        ensures MetaOk(s'.record, sid, s'.db.sessions[sid], TokenOf(s'.db.tokens, sid), s'.meta[sid])
      {
        if sid == id {
          SubmittedOk(s.record, sid, s.db.sessions[sid], token, s.meta[sid], now);
        } else {
          MetaKept(s.record, e, sid, s.db.sessions[sid], TokenOf(s.db.tokens, sid), s.meta[sid]);
        }
      }
    }
  }

  lemma BindEventJustified(record: seq<Event>, sid: nat, s: Session, token: Option<string>, m: Meta, mxid: string, now: int)
    requires MetaOk(record, sid, s, token, m) && s.validated && !Expired(s, now)
    ensures BindRestsOn(record + [Bound(sid, s.clientSecret, s.tp, mxid, now)], |record|, m.born,
                        m.proof.value.touched, m.proof.value.submitted, m.touched)
  {
    MetaKept(record, Bound(sid, s.clientSecret, s.tp, mxid, now), sid, s, token, m);
    var record' := record + [Bound(sid, s.clientSecret, s.tp, mxid, now)];
    assert LatestTouch(record', sid, m.touched, |record|);
    assert SameRow(record', sid, m.born, |record|);
  }

  lemma BindInv(s: State, step: Step)
    requires Inv(s) && step.PublicBind?
    ensures Inv(Next(s, step))
  {
    hide TokenOf, FindSession, MetaOk;
    var PublicBind(id, clientSecret, mxid, now) := step;
    var s' := Next(s, step);
    if s' != s {
      var e := Bound(id, clientSecret, s.db.sessions[id].tp, mxid, now);
      forall sid | sid in s'.db.sessions
        ensures MetaOk(s'.record, sid, s'.db.sessions[sid], TokenOf(s'.db.tokens, sid), s'.meta[sid])
      {
        MetaKept(s.record, e, sid, s.db.sessions[sid], TokenOf(s.db.tokens, sid), s.meta[sid]);
      }
      BindEventJustified(s.record, id, s.db.sessions[id], TokenOf(s.db.tokens, id), s.meta[id], mxid, now);
      forall i | 0 <= i < |s'.record| && s'.record[i].Bound?
        ensures exists born, k, v, r :: BindRestsOn(s'.record, i, born, k, v, r)
      {
        if i < |s.record| {
          var born, k, v, r :| BindRestsOn(s.record, i, born, k, v, r);
          BindKept(s.record, e, i, born, k, v, r);
        }
      }
    }
  }

  lemma CleanupInv(s: State, step: Step)
    requires Inv(s) && step.Cleanup?
    ensures Inv(Next(s, step))
  {
    hide TokenOf, FindSession, MetaOk, BindsJustified, KeepTokens;
    var gone, s' := Stale(s.db, step.now), Next(s, step);
    DeleteOldOneToOne(s.db, step.now);
    BindsKept(s.record, Removed(gone));
    forall sid | sid in s'.db.sessions
      ensures MetaOk(s'.record, sid, s'.db.sessions[sid], TokenOf(s'.db.tokens, sid), s'.meta[sid])
    {
      KeepTokensOf(s.db.tokens, (s.db.sessions - gone).Keys, sid);
      MetaKept(s.record, Removed(gone), sid, s.db.sessions[sid], TokenOf(s.db.tokens, sid), s.meta[sid]);
    }
  }

  lemma StepInv(s: State, step: Step)
    requires Inv(s)
    ensures Inv(Next(s, step))
  {
    hide Inv;
    match step
    case Request(tp, clientSecret, sid, _, _) =>
      if FindSession(s.db, s.db.tokens, tp, clientSecret).Some? {
        RequestExistingInv(s, step);
      } else if sid !in s.db.sessions {
        RequestNewInv(s, step);
      }
    case Submit(_, _, _, _) => SubmitInv(s, step);
    case PublicBind(_, _, _, _) => BindInv(s, step);
    case Cleanup(_) => CleanupInv(s, step);
  }

  lemma {:induction false} RunInv(s: State, steps: seq<Step>)
    requires Inv(s)
    ensures Inv(Run(s, steps))
  {
    hide Inv;
    if steps != [] {
      RunInv(s, steps[..|steps| - 1]);
      StepInv(Run(s, steps[..|steps| - 1]), steps[|steps| - 1]);
    }
  }

  // --------------------------------------------------------------- theorems

  /** In every run, every public bind was preceded, within the life of one session row, by the submission of
      the token issued for its identifier, with the same sid and secret, within 24 hours of the then latest
      token request, and the bind is itself within 24 hours of the latest token request. */
  lemma EveryBindWasProved(steps: seq<Step>, e: nat)
    requires e < |Run(EMPTY, steps).record| && Run(EMPTY, steps).record[e].Bound?
    ensures exists born, k, v, r :: BindRestsOn(Run(EMPTY, steps).record, e, born, k, v, r)
  {
    assert Inv(EMPTY);
    RunInv(EMPTY, steps);
  }

  /** In every run, sessions and token rows correspond one to one. */
  lemma TablesStayLinked(steps: seq<Step>)
    ensures OneToOne(Run(EMPTY, steps).db)
  {
    assert Inv(EMPTY);
    RunInv(EMPTY, steps);
  }

  /** A session row outlives every step other than a clean-up that finds it stale, with the same identifier,
      secret and token. */
  lemma StepKeepsSession(s: State, step: Step, sid: nat)
    requires Inv(s) && sid in s.db.sessions
    requires step.Cleanup? ==> sid !in Stale(s.db, step.now)
    ensures var db, db' := s.db, Next(s, step).db;
            && sid in db'.sessions && TokenOf(db'.tokens, sid) == TokenOf(db.tokens, sid)
            && db'.sessions[sid].tp == db.sessions[sid].tp
            && db'.sessions[sid].clientSecret == db.sessions[sid].clientSecret
  {
    hide TokenOf, FindSession, MetaOk, BindsJustified, KeepTokens;
    match step
    case Request(tp, clientSecret, id, token, now) =>
      if FindSession(s.db, s.db.tokens, tp, clientSecret).None? && id !in s.db.sessions {
        NewSessionOneToOne(s.db, tp, clientSecret, id, token, now);
      }
    case Submit(_, _, _, _) =>
    case PublicBind(_, _, _, _) =>
    case Cleanup(now) => KeepTokensOf(s.db.tokens, (s.db.sessions - Stale(s.db, now)).Keys, sid);
  }

  /** The session is not stale at any clean-up of the run. */
  predicate Survives(s: State, steps: seq<Step>, sid: nat) {
    forall i | 0 <= i < |steps| :: steps[i].Cleanup? ==> sid !in Stale(Run(s, steps[..i]).db, steps[i].now)
  }

  lemma {:induction false} SessionKept(s: State, steps: seq<Step>, sid: nat)
    requires Inv(s) && sid in s.db.sessions && Survives(s, steps, sid)
    ensures var db, db' := s.db, Run(s, steps).db;
            && sid in db'.sessions && TokenOf(db'.tokens, sid) == TokenOf(db.tokens, sid)
            && db'.sessions[sid].tp == db.sessions[sid].tp
            && db'.sessions[sid].clientSecret == db.sessions[sid].clientSecret
  {
    hide Inv, TokenOf;
    if steps != [] {
      var front := steps[..|steps| - 1];
      assert forall i | 0 <= i < |front| :: front[i] == steps[i] && front[..i] == steps[..i];
      SessionKept(s, front, sid);
      RunInv(s, front);
      StepKeepsSession(Run(s, front), steps[|steps| - 1], sid);
    }
  }

  /** In every run, asking again for the same identifier and secret gives the same sid and token, until a
      clean-up removes the session. */
  lemma RequestsRepeat(before: seq<Step>, steps: seq<Step>, sid: nat)
    requires var s := Run(EMPTY, before); sid in s.db.sessions && Survives(s, steps, sid)
    ensures var s, s' := Run(EMPTY, before), Run(Run(EMPTY, before), steps);
            var session := s.db.sessions[sid];
            && FindSession(s.db, s.db.tokens, session.tp, session.clientSecret).Some?
            && FindSession(s.db, s.db.tokens, session.tp, session.clientSecret).value.session == sid
            && FindSession(s'.db, s'.db.tokens, session.tp, session.clientSecret)
               == FindSession(s.db, s.db.tokens, session.tp, session.clientSecret)
  {
    hide TokenOf, FindSession, MetaOk, BindsJustified;
    assert Inv(EMPTY) by { assert BindsJustified(EMPTY.record) by { NoBinds(); } }
    RunInv(EMPTY, before);
    var s := Run(EMPTY, before);
    FindUnique(s.db, sid);
    SessionKept(s, steps, sid);
    RunInv(s, steps);
    FindUnique(Run(s, steps).db, sid);
  }

  // ------------------------------------------------- the right way succeeds

  /** The session as a token request at time `at` left it, or touched later. */
  predicate Usable(db: Tables, sid: nat, tp: Threepid, clientSecret: string, token: string, at: int) {
    && sid in db.sessions && db.sessions[sid].tp == tp && db.sessions[sid].clientSecret == clientSecret
    && db.sessions[sid].mtime >= at && TokenOf(db.tokens, sid) == Some(token)
  }

  /** All of it happens within 24 hours of that request. */
  predicate Within(steps: seq<Step>, at: int) {
    forall i | 0 <= i < |steps| :: at <= steps[i].now <= at + 24 * 60 * 60 * 1000
  }

  /** A token request, whatever sessions there are, leaves a usable one, unless the random id is taken. */
  lemma RequestMakesUsable(s: State, tp: Threepid, clientSecret: string, randomSid: nat, randomToken: string, at: int)
      returns (sid: nat, token: string)
    requires Inv(s) && (FindSession(s.db, s.db.tokens, tp, clientSecret).Some? || randomSid !in s.db.sessions)
    ensures Usable(Next(s, Request(tp, clientSecret, randomSid, randomToken, at)).db, sid, tp, clientSecret, token, at)
    ensures FindSession(s.db, s.db.tokens, tp, clientSecret).None? ==> sid == randomSid && token == randomToken
  {
    hide MetaOk, BindsJustified, TokenOf, FindSession;
    var found := FindSession(s.db, s.db.tokens, tp, clientSecret);
    if found.Some? {
      sid := found.value.session;
      FindUnique(s.db, sid);
      token := TokenOf(s.db.tokens, sid).value;
    } else {
      sid, token := randomSid, randomToken;
      NewSessionOneToOne(s.db, tp, clientSecret, sid, token, at);
    }
  }

  lemma StepKeepsUsable(s: State, step: Step, sid: nat, tp: Threepid, clientSecret: string, token: string, at: int)
    requires Inv(s) && Usable(s.db, sid, tp, clientSecret, token, at) && at <= step.now <= at + 24 * 60 * 60 * 1000
    ensures Usable(Next(s, step).db, sid, tp, clientSecret, token, at)
    ensures s.db.sessions[sid].validated ==> Next(s, step).db.sessions[sid].validated
  {
    hide Inv, TokenOf, FindSession, KeepTokens, Next;
    TouchedLater(s, step, sid, at);
    StepKeepsSession(s, step, sid);
  }

  /** Within that time no clean-up takes the session, its mtime stays at or after the request, and the flag stays. */
  lemma TouchedLater(s: State, step: Step, sid: nat, at: int)
    requires sid in s.db.sessions && s.db.sessions[sid].mtime >= at && at <= step.now <= at + 24 * 60 * 60 * 1000
    ensures step.Cleanup? ==> sid !in Stale(s.db, step.now)
    ensures var db' := Next(s, step).db;
            && sid in db'.sessions && db'.sessions[sid].mtime >= at
            && (s.db.sessions[sid].validated ==> db'.sessions[sid].validated)
  {
    hide TokenOf, FindSession, KeepTokens, SubmitOutcome, UseOutcome;
  }

  lemma {:induction false} RunKeepsUsable(s: State, steps: seq<Step>, sid: nat, tp: Threepid, clientSecret: string, token: string, at: int)
    requires Inv(s) && Usable(s.db, sid, tp, clientSecret, token, at) && Within(steps, at)
    ensures Usable(Run(s, steps).db, sid, tp, clientSecret, token, at)
    ensures s.db.sessions[sid].validated ==> Run(s, steps).db.sessions[sid].validated
  {
    hide Inv, TokenOf, Next;
    if steps != [] {
      var front := steps[..|steps| - 1];
      RunKeepsUsable(s, front, sid, tp, clientSecret, token, at);
      RunInv(s, front);
      StepKeepsUsable(Run(s, front), steps[|steps| - 1], sid, tp, clientSecret, token, at);
    }
  }

  lemma SubmitValidates(s: State, sid: nat, tp: Threepid, clientSecret: string, token: string, at: int, now: int)
    requires Inv(s) && Usable(s.db, sid, tp, clientSecret, token, at) && at <= now <= at + 24 * 60 * 60 * 1000
    ensures var s' := Next(s, Submit(sid, clientSecret, token, now));
            && Inv(s') && Usable(s'.db, sid, tp, clientSecret, token, at) && s'.db.sessions[sid].validated
            && s'.record == s.record + [Validated(sid, clientSecret, token, now)]
  {
    hide Inv, TokenOf;
    StepInv(s, Submit(sid, clientSecret, token, now));
    assert SubmitOutcome(s.db, sid, clientSecret, token, now) == Ok;
  }

  lemma BindSucceeds(s: State, sid: nat, tp: Threepid, clientSecret: string, token: string, at: int, mxid: string, now: int)
    requires Usable(s.db, sid, tp, clientSecret, token, at) && s.db.sessions[sid].validated && now <= at + 24 * 60 * 60 * 1000
    ensures Next(s, PublicBind(sid, clientSecret, mxid, now)).record == s.record + [Bound(sid, clientSecret, tp, mxid, now)]
  {
    hide TokenOf;
  }

  lemma EmptyInv()
    ensures Inv(EMPTY)
  {
    NoBinds();
  }

  /** After every run: when a token request is followed, within 24 hours and with anything in between, by the
      submission of its token and then by a bind with its sid and secret, both succeed, and the bind is for the
      identifier that the token was asked for. */
  lemma RightWaySucceeds(before: seq<Step>, tp: Threepid, clientSecret: string, randomSid: nat, randomToken: string, at: int,
                         between: seq<Step>, submitted: int, then_: seq<Step>, mxid: string, bound: int)
      returns (sid: nat, token: string)
    requires var db := Run(EMPTY, before).db; FindSession(db, db.tokens, tp, clientSecret).Some? || randomSid !in db.sessions
    requires Within(between, at) && Within(then_, at)
    requires at <= submitted <= at + 24 * 60 * 60 * 1000 && at <= bound <= at + 24 * 60 * 60 * 1000
    ensures var asked := Next(Run(EMPTY, before), Request(tp, clientSecret, randomSid, randomToken, at));
            var s1 := Run(asked, between);
            var s2 := Next(s1, Submit(sid, clientSecret, token, submitted));
            var s3 := Run(s2, then_);
            && Usable(asked.db, sid, tp, clientSecret, token, at)
            && s2.record == s1.record + [Validated(sid, clientSecret, token, submitted)]
            && Next(s3, PublicBind(sid, clientSecret, mxid, bound)).record
               == s3.record + [Bound(sid, clientSecret, tp, mxid, bound)]
  {
    hide Inv, TokenOf, FindSession, Run, Next, Within;
    var s := Run(EMPTY, before);
    EmptyInv();
    RunInv(EMPTY, before);
    sid, token := RequestMakesUsable(s, tp, clientSecret, randomSid, randomToken, at);
    var request := Request(tp, clientSecret, randomSid, randomToken, at);
    StepInv(s, request);
    var asked := Next(s, request);
    RunInv(asked, between);
    RunKeepsUsable(asked, between, sid, tp, clientSecret, token, at);
    var s1 := Run(asked, between);
    SubmitValidates(s1, sid, tp, clientSecret, token, at, submitted);
    var s2 := Next(s1, Submit(sid, clientSecret, token, submitted));
    RunKeepsUsable(s2, then_, sid, tp, clientSecret, token, at);
    BindSucceeds(Run(s2, then_), sid, tp, clientSecret, token, at, mxid, bound);
  }

  // --------------------------------------------------------------- clean-up

  /** A clean-up at this time would remove the session, or has done so. */
  predicate Dead(db: Tables, sid: nat, now: int) {
    sid in db.sessions ==> db.sessions[sid].mtime < now - 5 * SESSION_LIFETIME_MS
  }

  /** No token request for the session is recorded from this position on. */
  predicate Untouched(record: seq<Event>, start: nat, sid: nat) {
    forall i | start <= i < |record| :: !(record[i].Touched? && record[i].sid == sid)
  }

  /** Nor is any successful submission to it or bind that uses it. */
  predicate Unused(record: seq<Event>, start: nat, sid: nat) {
    forall i | start <= i < |record| ::
      !(record[i].Validated? && record[i].sid == sid) && !(record[i].Bound? && record[i].sid == sid)
  }

  lemma DeadIsRefused(db: Tables, sid: nat, now: int, later: int, clientSecret: string, token: string)
    requires Dead(db, sid, now) && later >= now
    ensures SubmitOutcome(db, sid, clientSecret, token, later) != Ok && UseOutcome(db, sid, clientSecret, later) != Ok
  {
    hide TokenOf;
  }

  lemma StepKeepsDead(s: State, step: Step, sid: nat, start: nat, now: int)
    requires Dead(s.db, sid, now) && step.now >= now && start <= |s.record|
    requires Unused(s.record, start, sid) && Untouched(Next(s, step).record, start, sid)
    ensures s.record <= Next(s, step).record
    ensures Dead(Next(s, step).db, sid, now) && Unused(Next(s, step).record, start, sid)
  {
    hide TokenOf, FindSession, KeepTokens;
    var s' := Next(s, step);
    match step
    case Request(tp, clientSecret, id, token, at) =>
      var found := FindSession(s.db, s.db.tokens, tp, clientSecret);
      if found.Some? {
        assert s'.record[|s.record|] == Touched(found.value.session, at);
      } else if id !in s.db.sessions {
        assert s'.record[|s.record| + 1] == Touched(id, at);
      }
    case Submit(id, clientSecret, token, at) => DeadIsRefused(s.db, sid, now, at, clientSecret, token);
    case PublicBind(id, clientSecret, _, at) => DeadIsRefused(s.db, sid, now, at, clientSecret, "");
    case Cleanup(_) =>
  }

  lemma {:induction false} RecordGrows(s: State, steps: seq<Step>)
    ensures s.record <= Run(s, steps).record
  {
    hide FindSession, SubmitOutcome, UseOutcome, DeleteOld;
    if steps != [] { RecordGrows(s, steps[..|steps| - 1]); }
  }

  lemma {:induction false} DeadStaysDead(s: State, steps: seq<Step>, sid: nat, now: int)
    requires Dead(s.db, sid, now) && forall i | 0 <= i < |steps| :: steps[i].now >= now
    requires Untouched(Run(s, steps).record, |s.record|, sid)
    ensures |s.record| <= |Run(s, steps).record|
    ensures Dead(Run(s, steps).db, sid, now) && Unused(Run(s, steps).record, |s.record|, sid)
  {
    hide Next, Dead;
    RecordGrows(s, steps);
    if steps != [] {
      var front, last := steps[..|steps| - 1], steps[|steps| - 1];
      RecordGrows(s, front);
      NextGrows(Run(s, front), last);
      assert forall i | 0 <= i < |Run(s, front).record| :: Run(s, front).record[i] == Run(s, steps).record[i];
      DeadStaysDead(s, front, sid, now);
      StepKeepsDead(Run(s, front), last, sid, |s.record|, now);
    }
  }

  lemma NextGrows(s: State, step: Step)
    ensures s.record <= Next(s, step).record
  {
    hide FindSession, SubmitOutcome, UseOutcome, DeleteOld;
  }

  /** A session that a clean-up removes was of no use, and would have been had it stayed: at that and every
      later time both checks refuse it, and no run that follows validates it or binds with it, until a token
      request touches it. */
  lemma CleanupRemovesOnlyDead(s: State, steps: seq<Step>, sid: nat, now: int, later: int, clientSecret: string, token: string)
    requires sid in s.db.sessions && sid !in DeleteOld(s.db, now).sessions && later >= now
    requires forall i | 0 <= i < |steps| :: steps[i].now >= now
    requires Untouched(Run(s, steps).record, |s.record|, sid)
    ensures SubmitOutcome(Run(s, steps).db, sid, clientSecret, token, later) != Ok
    ensures UseOutcome(Run(s, steps).db, sid, clientSecret, later) != Ok
    ensures Unused(Run(s, steps).record, |s.record|, sid)
  {
    hide Run, TokenOf, FindSession, KeepTokens;
    assert sid in Stale(s.db, now);
    DeadStaysDead(s, steps, sid, now);
    DeadIsRefused(Run(s, steps).db, sid, now, later, clientSecret, token);
  }

  lemma NoBinds()
    ensures BindsJustified(EMPTY.record)
  {
  }
}
