/**
 Whole runs of the session store: tokens are issued, saved, presented for rotation,
 revoked, and expire, in any order and any number.

 Two assumptions bound a run. A jti is fresh when it is issued (uuid.New), and claims
 under a good signature were issued (the MAC cannot be forged); an access token is
 signed with the same key and has an empty jti. A presented text need not be the issued
 one: any text that decodes to issued claims and their signature may come. Store faults
 are allowed anywhere; each theorem names the faults it rules out.
 */
module SessionRuns {
  import opened RefreshTokens
  import opened Wrappers

  /** The store, the claims of every refresh token issued so far by jti, and those not yet saved by the login that issued them. */
  datatype World = World(store: Store, issued: map<string, Claims>, pending: set<string>)

  const START := World(Store(0, map[], map[]), map[], {})

  datatype Step =
    | Tick(ms: nat)
    | Issue(username: string, jti: string)
    | Keep(jti: string, userAgent: string, ip: string, saveFaults: SaveFaults)
    | Present(token: Token, newJti: string, userAgent: string, ip: string, faults: RotateFaults)
    | Drop(jti: string, revokeFaults: RevokeFaults)
    | DropAll(username: string, allFaults: RevokeAllFaults)

  ghost predicate Fresh(w: World, jti: string) {
    jti != "" && jti !in w.issued
  }

  /** The text decodes to claims under a good signature. */
  predicate WellSigned(c: Crypto, token: Token) {
    c.decode(token).Some? && c.decode(token).value.signature == c.sign(c.decode(token).value.claims)
  }

  /** The claims of a text, if it decodes at all. */
  function Presented(c: Crypto, token: Token): Claims {
    if c.decode(token).Some? then c.decode(token).value.claims else Claims("", "", 0)
  }

  ghost predicate NotForged(c: Crypto, w: World, token: Token) {
    var claims := Presented(c, token);
    WellSigned(c, token) ==> claims.id == "" || (claims.id in w.issued && w.issued[claims.id] == claims)
  }

  ghost predicate Possible(c: Crypto, w: World, step: Step) {
    match step
    case Issue(_, jti) => Fresh(w, jti)
    case Keep(jti, _, _, _) => jti in w.pending && jti in w.issued
    case Present(token, newJti, _, _, _) => Fresh(w, newJti) && NotForged(c, w, token)
    case _ => true
  }

  /** What presenting a token does and answers. */
  function Answer(c: Crypto, w: World, step: Step): (Store, Outcome)
    requires step.Present?
  {
    Rotate(c, w.store, step.token, step.newJti, step.userAgent, step.ip, step.faults)
  }

  /** The claims of the refresh token a rotation issues. */
  function NewClaims(c: Crypto, w: World, step: Step): Claims
    requires step.Present?
  {
    RefreshClaims(w.store.now, Presented(c, step.token).username, step.newJti)
  }

  /** Saving the token issued for these claims. */
  function SaveIssued(c: Crypto, s: Store, claims: Claims, userAgent: string, ip: string, f: SaveFaults): Store {
    Save(c, s, claims.id, Signed(c, claims), claims.username, userAgent, ip, claims.expiresAt, f).0
  }

  function Next(c: Crypto, w: World, step: Step): World {
    match step
    case Tick(ms) => w.(store := Elapse(w.store, ms))
    case Issue(username, jti) =>
      w.(issued := w.issued[jti := RefreshClaims(w.store.now, username, jti)], pending := w.pending + {jti})
    case Keep(jti, userAgent, ip, f) =>
      if jti !in w.issued then w
      else w.(store := SaveIssued(c, w.store, w.issued[jti], userAgent, ip, f), pending := w.pending - {jti})
    case Present(token, newJti, userAgent, ip, f) =>
      var (store, outcome) := Answer(c, w, step);
      w.(store := store, issued := if outcome.Rotated? then w.issued[newJti := NewClaims(c, w, step)] else w.issued)
    case Drop(jti, f) => w.(store := Revoke(w.store, jti, f).0)
    case DropAll(username, f) => w.(store := RevokeAll(w.store, username, f).0)
  }

  /** The world before the n-th step. */
  function At(c: Crypto, steps: seq<Step>, n: nat): World
    requires n <= |steps|
  {
    if n == 0 then START else Next(c, At(c, steps, n - 1), steps[n - 1])
  }

  ghost predicate ValidRun(c: Crypto, steps: seq<Step>) {
    forall n {:trigger Possible(c, At(c, steps, n), steps[n])} :: 0 <= n < |steps| ==>
      Possible(c, At(c, steps, n), steps[n])
  }

  /** The store after the save inside a rotation. */
  function AfterSave(c: Crypto, w: World, step: Step): Store
    requires step.Present?
  {
    SaveIssued(c, w.store, NewClaims(c, w, step), step.userAgent, step.ip, step.faults.save)
  }

  /** The three ways a presentation can go. */
  lemma AnswerCases(c: Crypto, w: World, step: Step)
    requires step.Present?
    ensures var (s, outcome) := Answer(c, w, step);
            var jti := Presented(c, step.token).id;
            && (outcome.Rotated? ==>
                  && VerifyToken(c, w.store.now, step.token) == Some(Presented(c, step.token))
                  && jti != "" && jti in w.store.records && w.store.records[jti].record.tokenHash == c.hash(step.token)
                  && s == Revoke(AfterSave(c, w, step), jti, step.faults.revoke).0
                  && outcome.refresh == Signed(c, NewClaims(c, w, step)) && outcome.jti == step.newJti)
            && (outcome == Refused(ReuseDetected) ==>
                  && jti in w.store.records
                  && s == RevokeAll(w.store, w.store.records[jti].record.username, step.faults.revokeAll).0)
            && (!outcome.Rotated? && outcome != Refused(ReuseDetected) ==> s == w.store)
  {
  }

  // ---------------------------------------------------------------- records belong to issued tokens

  /** The record under a jti is that of the one token issued under it. */
  ghost predicate Genuine(c: Crypto, w: World, jti: string)
    requires jti in w.store.records
  {
    && jti in w.issued && jti !in w.pending
    && w.store.records[jti].record.username == w.issued[jti].username
    && w.store.records[jti].record.tokenHash == c.hash(Signed(c, w.issued[jti]))
    && w.store.records[jti].expiry <= w.store.now + REFRESH_LIFE
  }

  ghost predicate WellIssued(w: World, jti: string)
    requires jti in w.issued
  {
    && jti != "" && w.issued[jti].id == jti
    && w.issued[jti].expiresAt <= w.store.now + REFRESH_LIFE
  }

  /** A user's index set holds only jtis issued to that user and saved. */
  ghost predicate OwnMember(w: World, user: string, jti: string) {
    jti in w.issued && jti !in w.pending && w.issued[jti].username == user
  }

  ghost predicate RecordsGenuine(c: Crypto, w: World) {
    forall jti :: jti in w.store.records ==> Genuine(c, w, jti)
  }

  ghost predicate MembersOwn(w: World) {
    forall user, jti :: user in w.store.sessions && jti in w.store.sessions[user].members ==> OwnMember(w, user, jti)
  }

  ghost predicate Inv(c: Crypto, w: World) {
    && NoEmptySets(w.store)
    && w.pending <= w.issued.Keys
    && MembersOwn(w) && RecordsGenuine(c, w)
    && (forall jti :: jti in w.issued ==> WellIssued(w, jti))
  }

  /** Saving adds or changes no record but its own. */
  lemma SaveRecords(c: Crypto, s: Store, claims: Claims, ua: string, ip: string, f: SaveFaults)
    requires NoEmptySets(s)
    ensures var r, jti := SaveIssued(c, s, claims, ua, ip, f), claims.id;
            && NoEmptySets(r) && r.now == s.now
            && (forall j :: j in r.records && j != jti ==> j in s.records && r.records[j] == s.records[j])
            && (forall j :: j in s.records && j != jti ==> j in r.records)
            && (jti in r.records ==>
                  || (jti in s.records && r.records[jti] == s.records[jti])
                  || r.records[jti] == Stored(Record(claims.username, c.hash(Signed(c, claims)), claims.expiresAt, ua, ip),
                                              s.now + TimeToLive(s.now, claims.expiresAt)))
  {
  }

  /** Saving and revoking change only the index set of the user concerned, and there only their own jti. */
  lemma SaveMembers(c: Crypto, s: Store, claims: Claims, ua: string, ip: string, f: SaveFaults)
    ensures var r := SaveIssued(c, s, claims, ua, ip, f);
            forall u, j :: u in r.sessions && j in r.sessions[u].members ==>
              (u in s.sessions && j in s.sessions[u].members) || (u == claims.username && j == claims.id)
  {
  }

  lemma RevokeMembers(s: Store, jti: string, f: RevokeFaults)
    ensures var r := Revoke(s, jti, f).0;
            forall u, j :: u in r.sessions && j in r.sessions[u].members ==> u in s.sessions && j in s.sessions[u].members
  {
  }

  /** Revoking only removes, and only the record of its own jti. */
  lemma RevokeRecords(s: Store, jti: string, f: RevokeFaults)
    requires NoEmptySets(s)
    ensures var r := Revoke(s, jti, f).0;
            NoEmptySets(r) && r.now == s.now && r.records == if f.del then s.records else s.records - {jti}
  {
  }

  /** A world whose store only lost records and members, or gained those of an issued, saved token, is still in order. */
  lemma SaveKeepsInv(c: Crypto, w: World, jti: string, ua: string, ip: string, f: SaveFaults)
    requires Inv(c, w) && jti in w.issued && jti !in w.pending
    ensures Inv(c, w.(store := SaveIssued(c, w.store, w.issued[jti], ua, ip, f)))
  {
    SaveRecords(c, w.store, w.issued[jti], ua, ip, f);
    SaveMembers(c, w.store, w.issued[jti], ua, ip, f);
  }

  lemma RevokeKeepsInv(c: Crypto, w: World, jti: string, f: RevokeFaults)
    requires Inv(c, w)
    ensures Inv(c, w.(store := Revoke(w.store, jti, f).0))
  {
    RevokeRecords(w.store, jti, f);
    RevokeMembers(w.store, jti, f);
  }

  lemma RevokeAllKeepsInv(c: Crypto, w: World, user: string, f: RevokeAllFaults)
    requires Inv(c, w)
    ensures Inv(c, w.(store := RevokeAll(w.store, user, f).0))
  {
  }

  /** The world of a rotation whose new token has been issued and nothing has been stored yet. */
  function Reissued(c: Crypto, w: World, step: Step): World
    requires step.Present?
  {
    w.(issued := w.issued[step.newJti := NewClaims(c, w, step)])
  }

  lemma ReissueKeepsInv(c: Crypto, w: World, step: Step)
    requires Inv(c, w) && Possible(c, w, step) && step.Present?
    ensures Inv(c, Reissued(c, w, step))
  {
  }

  lemma PresentKeepsInv(c: Crypto, w: World, step: Step)
    requires Inv(c, w) && Possible(c, w, step) && step.Present?
    ensures Inv(c, Next(c, w, step))
  {
    var outcome, jti := Answer(c, w, step).1, Presented(c, step.token).id;
    AnswerCases(c, w, step);
    if outcome.Rotated? {
      var mid := Reissued(c, w, step);
      ReissueKeepsInv(c, w, step);
      SaveKeepsInv(c, mid, step.newJti, step.userAgent, step.ip, step.faults.save);
      RevokeKeepsInv(c, mid.(store := AfterSave(c, w, step)), jti, step.faults.revoke);
    } else if outcome == Refused(ReuseDetected) {
      RevokeAllKeepsInv(c, w, w.store.records[jti].record.username, step.faults.revokeAll);
    }
  }

  lemma NextKeepsInv(c: Crypto, w: World, step: Step)
    requires Inv(c, w) && Possible(c, w, step)
    ensures Inv(c, Next(c, w, step))
  {
    match step
    case Tick(_) =>
    case Issue(_, _) =>
    case Keep(jti, ua, ip, f) => KeepKeepsInv(c, w, jti, ua, ip, f);
    case Present(_, _, _, _, _) => PresentKeepsInv(c, w, step);
    case Drop(jti, f) => RevokeKeepsInv(c, w, jti, f);
    case DropAll(user, f) => RevokeAllKeepsInv(c, w, user, f);
  }

  lemma KeepKeepsInv(c: Crypto, w: World, jti: string, ua: string, ip: string, f: SaveFaults)
    requires Inv(c, w) && jti in w.pending
    ensures Inv(c, Next(c, w, Keep(jti, ua, ip, f)))
  {
    SaveKeepsInv(c, w.(pending := w.pending - {jti}), jti, ua, ip, f);
  }

  lemma {:induction false} RunKeepsInv(c: Crypto, steps: seq<Step>, n: nat)
    requires ValidRun(c, steps) && n <= |steps|
    ensures Inv(c, At(c, steps, n))
  {
    if n > 0 {
      RunKeepsInv(c, steps, n - 1);
      assert Possible(c, At(c, steps, n - 1), steps[n - 1]);
      NextKeepsInv(c, At(c, steps, n - 1), steps[n - 1]);
    }
  }

  /** In every reachable world a live record carries the hash and the user of the token issued under its jti. */
  lemma RecordsAreGenuine(c: Crypto, steps: seq<Step>, n: nat, jti: string)
    requires ValidRun(c, steps) && n <= |steps| && jti in At(c, steps, n).store.records
    ensures var w := At(c, steps, n);
            && jti in w.issued
            && w.store.records[jti].record.tokenHash == c.hash(Signed(c, w.issued[jti]))
            && w.store.records[jti].record.username == w.issued[jti].username
  {
    RunKeepsInv(c, steps, n);
  }

  /** The presentation gets as far as comparing hashes. */
  predicate Compared(c: Crypto, w: World, step: Step)
    requires step.Present?
  {
    var jti := Presented(c, step.token).id;
    VerifyToken(c, w.store.now, step.token).Some? && jti != "" && !step.faults.get && jti in w.store.records
  }

  /**
   Reuse is reported exactly when a live session's claims come under another text than the
   one issued, or, to be exact, under a text with another hash; never because of reuse.
   */
  lemma ReuseDetectedIff(c: Crypto, steps: seq<Step>, n: nat)
    requires ValidRun(c, steps) && n < |steps| && steps[n].Present?
    ensures var w, step := At(c, steps, n), steps[n];
            var jti := Presented(c, step.token).id;
            Compared(c, w, step) ==>
              && jti in w.issued
              && var issued := Signed(c, w.issued[jti]);
                 && (Answer(c, w, step).1 == Refused(ReuseDetected) <==> c.hash(step.token) != c.hash(issued))
                 && ((c.hash(step.token) == c.hash(issued) ==> step.token == issued) ==>
                      (Answer(c, w, step).1 == Refused(ReuseDetected) <==> step.token != issued))
    ensures !Compared(c, At(c, steps, n), steps[n]) ==> Answer(c, At(c, steps, n), steps[n]).1 != Refused(ReuseDetected)
  {
    RunKeepsInv(c, steps, n);
    assert Possible(c, At(c, steps, n), steps[n]);
  }

  /** Only one text decodes to given claims under their signature. */
  ghost predicate OneText(c: Crypto) {
    forall token :: WellSigned(c, token) ==> token == Signed(c, Presented(c, token))
  }

  /** If tokens have one text each, the hash-mismatch branch is never reached, whatever faults the store has. */
  lemma ReuseNeverDetected(c: Crypto, steps: seq<Step>, n: nat)
    requires OneText(c) && ValidRun(c, steps) && n < |steps| && steps[n].Present?
    ensures Answer(c, At(c, steps, n), steps[n]).1 != Refused(ReuseDetected)
  {
    ReuseDetectedIff(c, steps, n);
    assert Possible(c, At(c, steps, n), steps[n]);
  }

  // ---------------------------------------------------------------- a token is accepted at most once

  /** No record, and no login left that could save one. */
  ghost predicate Spent(w: World, jti: string) {
    jti in w.issued && jti !in w.pending && jti !in w.store.records
  }

  lemma SpentStays(c: Crypto, w: World, step: Step, jti: string)
    requires Inv(c, w) && Possible(c, w, step) && Spent(w, jti)
    ensures Spent(Next(c, w, step), jti)
  {
    match step
    case Present(_, _, _, _, _) =>
      AnswerCases(c, w, step);
      SaveRecords(c, w.store, NewClaims(c, w, step), step.userAgent, step.ip, step.faults.save);
      RevokeRecords(AfterSave(c, w, step), Presented(c, step.token).id, step.faults.revoke);
    case Keep(other, ua, ip, f) => SaveRecords(c, w.store, w.issued[other], ua, ip, f);
    case Drop(other, f) => RevokeRecords(w.store, other, f);
    case _ =>
  }

  lemma {:induction false} SpentForever(c: Crypto, steps: seq<Step>, i: nat, k: nat, jti: string)
    requires ValidRun(c, steps) && i <= k <= |steps| && Spent(At(c, steps, i), jti)
    ensures Spent(At(c, steps, k), jti)
    decreases k
  {
    if i < k {
      SpentForever(c, steps, i, k - 1, jti);
      RunKeepsInv(c, steps, k - 1);
      assert Possible(c, At(c, steps, k - 1), steps[k - 1]);
      SpentStays(c, At(c, steps, k - 1), steps[k - 1], jti);
    }
  }

  /** Accepting a token leaves its record behind, unchanged, exactly when the delete of the old record fails. */
  lemma SpentIffDeleted(c: Crypto, w: World, step: Step)
    requires Inv(c, w) && Possible(c, w, step) && step.Present? && Answer(c, w, step).1.Rotated?
    ensures var w', jti := Next(c, w, step), Presented(c, step.token).id;
            && (Spent(w', jti) <==> !step.faults.revoke.del)
            && (jti in w'.store.records <==> step.faults.revoke.del)
            && jti in w.store.records && (step.faults.revoke.del ==> w'.store.records[jti] == w.store.records[jti])
            && w'.store.now == w.store.now
  {
    AnswerCases(c, w, step);
    SaveRecords(c, w.store, NewClaims(c, w, step), step.userAgent, step.ip, step.faults.save);
    RevokeRecords(AfterSave(c, w, step), Presented(c, step.token).id, step.faults.revoke);
    assert Genuine(c, w, Presented(c, step.token).id);
  }

  lemma SpentIsRefused(c: Crypto, w: World, step: Step)
    requires step.Present? && Presented(c, step.token).id != "" && Spent(w, Presented(c, step.token).id)
    ensures Answer(c, w, step) ==
            (w.store,
             Refused(if VerifyToken(c, w.store.now, step.token).None? then BadToken
                     else if step.faults.get then StoreError
                     else NotFound))
  {
  }

  /**
   At most once over a whole run: once a token has been accepted and its old record deleted,
   every later presentation of its jti, under whatever text, is refused, as expired or
   forged, or as not found (or because the store cannot be read).
   */
  lemma AcceptedAtMostOnce(c: Crypto, steps: seq<Step>, i: nat, k: nat)
    requires ValidRun(c, steps) && i < k < |steps| && steps[i].Present? && steps[k].Present?
    requires Presented(c, steps[i].token).id == Presented(c, steps[k].token).id
    requires Answer(c, At(c, steps, i), steps[i]).1.Rotated? && !steps[i].faults.revoke.del
    ensures Answer(c, At(c, steps, k), steps[k]) ==
            (At(c, steps, k).store,
             Refused(if VerifyToken(c, At(c, steps, k).store.now, steps[k].token).None? then BadToken
                     else if steps[k].faults.get then StoreError
                     else NotFound))
  {
    var jti := Presented(c, steps[i].token).id;
    RunKeepsInv(c, steps, i);
    assert Possible(c, At(c, steps, i), steps[i]);
    SpentIffDeleted(c, At(c, steps, i), steps[i]);
    AnswerCases(c, At(c, steps, i), steps[i]);
    assert At(c, steps, i + 1) == Next(c, At(c, steps, i), steps[i]);
    SpentForever(c, steps, i + 1, k, jti);
    SpentIsRefused(c, At(c, steps, k), steps[k]);
  }

  /** Presented again at once, with a healthy store, an accepted token is accepted again exactly when its delete failed. */
  lemma SecondUseIffDeleteFailed(c: Crypto, w: World, first: Step, second: Step)
    requires Inv(c, w) && Possible(c, w, first) && first.Present? && Answer(c, w, first).1.Rotated?
    requires Possible(c, Next(c, w, first), second) && second.Present?
    requires second.token == first.token && second.faults == NO_ROTATE_FAULTS
    ensures Answer(c, Next(c, w, first), second).1.Rotated? <==> first.faults.revoke.del
  {
    SpentIffDeleted(c, w, first);
    AnswerCases(c, w, first);
  }

  // ---------------------------------------------------------------- a saved session lives as long as its token

  lemma NowStep(c: Crypto, w: World, step: Step)
    ensures w.store.now <= Next(c, w, step).store.now
  {
    if step.Present? {
      AnswerCases(c, w, step);
    }
  }

  /** The step may end this session of this user: it rotates it, revokes it, or revokes all of the user's. */
  ghost predicate MayEnd(c: Crypto, w: World, step: Step, user: string, jti: string) {
    match step
    case Present(token, _, _, _, _) =>
      || Accepts(c, w, step, jti)
      || (Answer(c, w, step).1 == Refused(ReuseDetected) && Presented(c, token).username == user)
    case Drop(other, _) => other == jti
    case DropAll(other, _) => other == user
    case _ => false
  }

  /** The session is live, its record is that of its issued token, and it expires with it. */
  ghost predicate LivesOut(c: Crypto, w: World, jti: string, claims: Claims) {
    && jti in w.issued && w.issued[jti] == claims && jti in w.store.records && jti !in w.pending
    && w.store.records[jti].expiry == claims.expiresAt
    && w.store.records[jti].record.tokenHash == c.hash(Signed(c, claims))
  }

  lemma RevokeSparesOthers(c: Crypto, w: World, jti: string, claims: Claims, other: string, f: RevokeFaults)
    requires Inv(c, w) && LivesOut(c, w, jti, claims) && other != jti
    ensures LivesOut(c, w.(store := Revoke(w.store, other, f).0), jti, claims)
  {
  }

  lemma RevokeAllSparesOtherUsers(c: Crypto, w: World, jti: string, claims: Claims, user: string, f: RevokeAllFaults)
    requires Inv(c, w) && LivesOut(c, w, jti, claims) && claims.username != user
    ensures LivesOut(c, w.(store := RevokeAll(w.store, user, f).0), jti, claims)
  {
    assert jti in Members(w.store, user) ==> OwnMember(w, user, jti);
  }

  lemma SaveSparesOthers(
      c: Crypto, w: World, jti: string, claims: Claims, other: Claims, ua: string, ip: string, f: SaveFaults)
    requires Inv(c, w) && LivesOut(c, w, jti, claims) && other.id != jti
    ensures LivesOut(c, w.(store := SaveIssued(c, w.store, other, ua, ip, f)), jti, claims)
  {
    SaveRecords(c, w.store, other, ua, ip, f);
  }

  lemma PresentSparesOthers(c: Crypto, w: World, step: Step, jti: string, claims: Claims)
    requires Inv(c, w) && Possible(c, w, step) && step.Present? && LivesOut(c, w, jti, claims)
    requires !MayEnd(c, w, step, claims.username, jti)
    ensures LivesOut(c, Next(c, w, step), jti, claims)
  {
    var outcome, other := Answer(c, w, step).1, Presented(c, step.token).id;
    AnswerCases(c, w, step);
    if outcome.Rotated? {
      var mid := Reissued(c, w, step);
      ReissueKeepsInv(c, w, step);
      SaveSparesOthers(c, mid, jti, claims, NewClaims(c, w, step), step.userAgent, step.ip, step.faults.save);
      SaveKeepsInv(c, mid, step.newJti, step.userAgent, step.ip, step.faults.save);
      RevokeSparesOthers(c, mid.(store := AfterSave(c, w, step)), jti, claims, other, step.faults.revoke);
    } else if outcome == Refused(ReuseDetected) {
      assert Genuine(c, w, other);
      RevokeAllSparesOtherUsers(c, w, jti, claims, w.store.records[other].record.username, step.faults.revokeAll);
    }
  }

  /** A step that may not end the session leaves it living until its token expires. */
  lemma LivesOutStep(c: Crypto, w: World, step: Step, jti: string, claims: Claims)
    requires Inv(c, w) && Possible(c, w, step) && LivesOut(c, w, jti, claims)
    requires !MayEnd(c, w, step, claims.username, jti) && Next(c, w, step).store.now < claims.expiresAt
    ensures LivesOut(c, Next(c, w, step), jti, claims)
  {
    match step
    case Tick(_) =>
    case Issue(_, _) =>
    case Keep(other, ua, ip, f) =>
      SaveSparesOthers(c, w, jti, claims, w.issued[other], ua, ip, f);
    case Present(_, _, _, _, _) => PresentSparesOthers(c, w, step, jti, claims);
    case Drop(other, f) => RevokeSparesOthers(c, w, jti, claims, other, f);
    case DropAll(user, f) => RevokeAllSparesOtherUsers(c, w, jti, claims, user, f);
  }

  /** The step saves the session of these claims without faults: the login's own save, or the save inside a rotation. */
  ghost predicate Saves(c: Crypto, w: World, step: Step, jti: string, claims: Claims) {
    match step
    case Keep(own, _, _, f) => own == jti && f == NO_SAVE_FAULTS && jti in w.issued && w.issued[jti] == claims
    case Present(_, newJti, _, _, f) =>
      newJti == jti && f.save == NO_SAVE_FAULTS && Answer(c, w, step).1.Rotated? && NewClaims(c, w, step) == claims
    case _ => false
  }

  /** Until the claims expire, the session is live. */
  ghost predicate LivesUntilExpiry(c: Crypto, w: World, jti: string, claims: Claims) {
    w.store.now < claims.expiresAt ==> LivesOut(c, w, jti, claims)
  }

  lemma SavedLivesOut(c: Crypto, w: World, step: Step, jti: string, claims: Claims)
    requires Inv(c, w) && Possible(c, w, step) && Saves(c, w, step, jti, claims)
    ensures LivesUntilExpiry(c, Next(c, w, step), jti, claims)
  {
    match step
    case Keep(_, _, _, _) => assert WellIssued(w, jti);
    case Present(_, _, _, _, f) =>
      var mid, other := Reissued(c, w, step), Presented(c, step.token).id;
      AnswerCases(c, w, step);
      ReissueKeepsInv(c, w, step);
      SaveKeepsInv(c, mid, jti, step.userAgent, step.ip, f.save);
      assert Genuine(c, w, other) && other != jti;
      var saved := mid.(store := AfterSave(c, w, step));
      assert jti in saved.store.records && LivesOut(c, saved, jti, claims);
      RevokeSparesOthers(c, saved, jti, claims, other, f.revoke);
  }

  lemma StaysUntilExpiry(c: Crypto, w: World, step: Step, jti: string, claims: Claims)
    requires Inv(c, w) && Possible(c, w, step) && LivesUntilExpiry(c, w, jti, claims)
    requires !MayEnd(c, w, step, claims.username, jti)
    ensures LivesUntilExpiry(c, Next(c, w, step), jti, claims)
  {
    NowStep(c, w, step);
    if Next(c, w, step).store.now < claims.expiresAt {
      LivesOutStep(c, w, step, jti, claims);
    }
  }

  lemma SavedInRun(c: Crypto, steps: seq<Step>, i: nat, jti: string, claims: Claims)
    requires ValidRun(c, steps) && i < |steps| && Saves(c, At(c, steps, i), steps[i], jti, claims)
    ensures LivesUntilExpiry(c, At(c, steps, i + 1), jti, claims)
  {
    RunKeepsInv(c, steps, i);
    assert Possible(c, At(c, steps, i), steps[i]) && At(c, steps, i + 1) == Next(c, At(c, steps, i), steps[i]);
    SavedLivesOut(c, At(c, steps, i), steps[i], jti, claims);
  }

  lemma StaysInRun(c: Crypto, steps: seq<Step>, k: nat, jti: string, claims: Claims)
    requires ValidRun(c, steps) && k < |steps| && LivesUntilExpiry(c, At(c, steps, k), jti, claims)
    requires !MayEnd(c, At(c, steps, k), steps[k], claims.username, jti)
    ensures LivesUntilExpiry(c, At(c, steps, k + 1), jti, claims)
  {
    RunKeepsInv(c, steps, k);
    assert Possible(c, At(c, steps, k), steps[k]) && At(c, steps, k + 1) == Next(c, At(c, steps, k), steps[k]);
    StaysUntilExpiry(c, At(c, steps, k), steps[k], jti, claims);
  }

  /** Step i saves the session, and no step since, up to the n-th, may have ended it. */
  ghost predicate Undisturbed(c: Crypto, steps: seq<Step>, i: nat, n: nat, jti: string, claims: Claims)
    requires i < n <= |steps|
  {
    && Saves(c, At(c, steps, i), steps[i], jti, claims)
    && forall k {:trigger At(c, steps, k)} :: i < k < n ==> !MayEnd(c, At(c, steps, k), steps[k], claims.username, jti)
  }

  /**
   Over any run: a session saved without faults, at a login or in a rotation, and not
   rotated or revoked since, is live in every later world until its token expires.
   */
  lemma {:induction false} SessionLivesAsLongAsItsToken(
      c: Crypto, steps: seq<Step>, i: nat, n: nat, jti: string, claims: Claims)
    requires ValidRun(c, steps) && i < n <= |steps| && Undisturbed(c, steps, i, n, jti, claims)
    ensures LivesUntilExpiry(c, At(c, steps, n), jti, claims)
    decreases n
  {
    var k := n - 1;
    if k == i {
      SavedInRun(c, steps, k, jti, claims);
    } else {
      SessionLivesAsLongAsItsToken(c, steps, i, k, jti, claims);
      StaysInRun(c, steps, k, jti, claims);
    }
  }

  /** And presenting its token to a healthy store is then accepted. */
  lemma LiveTokenRotates(
      c: Crypto, steps: seq<Step>, i: nat, n: nat, jti: string, claims: Claims, newJti: string, ua: string, ip: string)
    requires ReadsItsOwn(c)
    requires ValidRun(c, steps) && i < n <= |steps| && Undisturbed(c, steps, i, n, jti, claims)
    requires At(c, steps, n).store.now < claims.expiresAt
    ensures Answer(c, At(c, steps, n), Present(Signed(c, claims), newJti, ua, ip, NO_ROTATE_FAULTS)).1.Rotated?
  {
    SessionLivesAsLongAsItsToken(c, steps, i, n, jti, claims);
    RunKeepsInv(c, steps, n);
    assert WellIssued(At(c, steps, n), jti);
    SignedVerifiesUntil(c, At(c, steps, n).store.now, claims);
  }

  // ---------------------------------------------------------------- counting acceptances

  /** The step presents a token with this jti and the token is accepted. */
  predicate Accepts(c: Crypto, w: World, step: Step, jti: string) {
    step.Present? && Presented(c, step.token).id == jti && Answer(c, w, step).1.Rotated?
  }

  /** How often a jti is accepted in the first n steps. */
  function Acceptances(c: Crypto, steps: seq<Step>, n: nat, jti: string): nat
    requires n <= |steps|
  {
    if n == 0 then 0
    else Acceptances(c, steps, n - 1, jti) + (if Accepts(c, At(c, steps, n - 1), steps[n - 1], jti) then 1 else 0)
  }

  /** How often the final delete of such a rotation fails. */
  function FailedDeletes(c: Crypto, steps: seq<Step>, n: nat, jti: string): nat
    requires n <= |steps|
  {
    if n == 0 then 0
    else
      FailedDeletes(c, steps, n - 1, jti)
      + (if Accepts(c, At(c, steps, n - 1), steps[n - 1], jti) && steps[n - 1].faults.revoke.del then 1 else 0)
  }

  /** A step accepts a jti only if it is not spent; it is then spent exactly when the delete succeeds. */
  lemma AcceptanceStep(c: Crypto, w: World, step: Step, jti: string)
    requires Inv(c, w) && Possible(c, w, step)
    ensures Spent(w, jti) ==> !Accepts(c, w, step, jti) && Spent(Next(c, w, step), jti)
    ensures Accepts(c, w, step, jti) ==> (Spent(Next(c, w, step), jti) <==> !step.faults.revoke.del)
  {
    if Accepts(c, w, step, jti) {
      SpentIffDeleted(c, w, step);
    }
    if Spent(w, jti) {
      SpentStays(c, w, step, jti);
    }
  }

  /**
   Over a whole run a jti is accepted no more often than once for each rotation of it whose
   delete failed, and once more if it is spent.
   */
  lemma {:induction false} AcceptancesAreCounted(c: Crypto, steps: seq<Step>, n: nat, jti: string)
    requires ValidRun(c, steps) && n <= |steps|
    ensures Acceptances(c, steps, n, jti)
            <= FailedDeletes(c, steps, n, jti) + (if Spent(At(c, steps, n), jti) then 1 else 0)
  {
    if n > 0 {
      AcceptancesAreCounted(c, steps, n - 1, jti);
      RunKeepsInv(c, steps, n - 1);
      assert Possible(c, At(c, steps, n - 1), steps[n - 1]);
      AcceptanceStep(c, At(c, steps, n - 1), steps[n - 1], jti);
      assert At(c, steps, n) == Next(c, At(c, steps, n - 1), steps[n - 1]);
    }
  }

  // ---------------------------------------------------------------- runs that go wrong

  lemma {:induction false} AtPrefix(c: Crypto, steps: seq<Step>, step: Step, n: nat)
    requires n <= |steps|
    ensures At(c, steps + [step], n) == At(c, steps, n)
  {
    if n > 0 {
      AtPrefix(c, steps, step, n - 1);
    }
  }

  /** A valid run and one more possible step are a valid run. */
  lemma OneMoreStep(c: Crypto, steps: seq<Step>, step: Step)
    requires ValidRun(c, steps) && Possible(c, At(c, steps, |steps|), step)
    ensures ValidRun(c, steps + [step])
    ensures At(c, steps + [step], |steps|) == At(c, steps, |steps|)
    ensures At(c, steps + [step], |steps| + 1) == Next(c, At(c, steps, |steps|), step)
  {
    forall n | 0 <= n < |steps| + 1
      ensures Possible(c, At(c, steps + [step], n), (steps + [step])[n])
    {
      AtPrefix(c, steps, step, n);
      assert n < |steps| ==> Possible(c, At(c, steps, n), steps[n]);
    }
    AtPrefix(c, steps, step, |steps|);
  }

  /** A login whose refresh token has the jti "a", saved with these faults. */
  function Login(user: string, f: SaveFaults): seq<Step> {
    [Issue(user, "a")] + [Keep("a", "", "", f)]
  }

  function LoginToken(c: Crypto, user: string): Token {
    Signed(c, RefreshClaims(0, user, "a"))
  }

  lemma LoginRuns(c: Crypto, user: string, f: SaveFaults)
    ensures ValidRun(c, Login(user, f))
    ensures var w := At(c, Login(user, f), 2);
            && w.issued == map["a" := RefreshClaims(0, user, "a")]
            && w.store == SaveIssued(c, START.store, RefreshClaims(0, user, "a"), "", "", f)
  {
    assert At(c, [], 0) == START;
    OneMoreStep(c, [], Issue(user, "a"));
    assert [] + [Issue(user, "a")] == [Issue(user, "a")];
    OneMoreStep(c, [Issue(user, "a")], Keep("a", "", "", f));
  }

  const FAILING_DELETE := NO_ROTATE_FAULTS.(revoke := RevokeFaults(false, false, true))

  function FirstUse(c: Crypto, user: string): Step {
    Present(LoginToken(c, user), "b", "", "", FAILING_DELETE)
  }

  function SecondUse(c: Crypto, user: string): Step {
    Present(LoginToken(c, user), "c", "", "", NO_ROTATE_FAULTS)
  }

  lemma FirstUseIsAccepted(c: Crypto, user: string)
    requires ReadsItsOwn(c)
    ensures var w := At(c, Login(user, NO_SAVE_FAULTS), 2);
            Inv(c, w) && Possible(c, w, FirstUse(c, user)) && Answer(c, w, FirstUse(c, user)).1.Rotated?
  {
    var claims := RefreshClaims(0, user, "a");
    LoginRuns(c, user, NO_SAVE_FAULTS);
    RunKeepsInv(c, Login(user, NO_SAVE_FAULTS), 2);
    assert c.decode(Signed(c, claims)) == Some(Decoded(claims, c.sign(claims)));
    SignedVerifiesUntil(c, 0, claims);
    assert "a"[0] != "b"[0];
  }

  lemma SecondUseIsAccepted(c: Crypto, user: string)
    requires ReadsItsOwn(c)
    ensures var w := Next(c, At(c, Login(user, NO_SAVE_FAULTS), 2), FirstUse(c, user));
            Possible(c, w, SecondUse(c, user)) && Answer(c, w, SecondUse(c, user)).1.Rotated?
  {
    var claims := RefreshClaims(0, user, "a");
    FirstUseIsAccepted(c, user);
    LoginRuns(c, user, NO_SAVE_FAULTS);
    assert c.decode(Signed(c, claims)) == Some(Decoded(claims, c.sign(claims)));
    assert "a"[0] != "b"[0] && "a"[0] != "c"[0] && "b"[0] != "c"[0];
    SecondUseIffDeleteFailed(c, At(c, Login(user, NO_SAVE_FAULTS), 2), FirstUse(c, user), SecondUse(c, user));
  }

  function TwiceUsed(c: Crypto, user: string): seq<Step> {
    Login(user, NO_SAVE_FAULTS) + [FirstUse(c, user)] + [SecondUse(c, user)]
  }

  /** And it does happen: a run from the start in which one token is accepted twice. */
  lemma AcceptedTwice(c: Crypto, user: string)
    requires ReadsItsOwn(c)
    ensures var steps := TwiceUsed(c, user);
            && ValidRun(c, steps) && |steps| == 4
            && steps[2].Present? && steps[3].Present? && steps[2].token == steps[3].token
            && Answer(c, At(c, steps, 2), steps[2]).1.Rotated? && Answer(c, At(c, steps, 3), steps[3]).1.Rotated?
  {
    var login := Login(user, NO_SAVE_FAULTS);
    LoginRuns(c, user, NO_SAVE_FAULTS);
    FirstUseIsAccepted(c, user);
    OneMoreStep(c, login, FirstUse(c, user));
    SecondUseIsAccepted(c, user);
    OneMoreStep(c, login + [FirstUse(c, user)], SecondUse(c, user));
    AtPrefix(c, login + [FirstUse(c, user)], SecondUse(c, user), 2);
  }

  // ---------------------------------------------------------------- the index never loses a live session

  /** The jti is in its user's set, and the set outlives the record. */
  ghost predicate Listed(s: Store, jti: string)
    requires jti in s.records
  {
    var user := s.records[jti].record.username;
    && user in s.sessions && jti in s.sessions[user].members
    && s.sessions[user].expiry.Some? && s.records[jti].expiry < s.sessions[user].expiry.value
  }

  ghost predicate AllListed(s: Store) {
    forall jti :: jti in s.records ==> Listed(s, jti)
  }

  ghost predicate ShortLived(s: Store) {
    forall jti :: jti in s.records ==> s.records[jti].expiry <= s.now + REFRESH_LIFE
  }

  /** The user's set would outlive a record saved now. */
  ghost predicate Outlives(s: Store, claims: Claims) {
    var expiry := Expiry(s, claims.username);
    expiry.Some? && s.now + TimeToLive(s.now, claims.expiresAt) < expiry.value
  }

  /** Nothing was saved, or a failed listing was undone, or the set's expiry is or was late enough. */
  ghost predicate SaveKeepsIndex(s: Store, claims: Claims, f: SaveFaults) {
    f.set_ || (if f.sadd then !f.del else !f.expire || Outlives(s, claims))
  }

  /** The record is not left behind by a revocation that has already unlisted it. */
  ghost predicate RevokeKeepsIndex(s: Store, jti: string, f: RevokeFaults) {
    jti in s.records && f.del ==> f.get || f.srem
  }

  /** The exact condition on a step's faults under which it keeps every live session listed. */
  ghost predicate KeepsIndex(c: Crypto, w: World, step: Step) {
    match step
    case Keep(jti, _, _, f) => jti in w.issued ==> SaveKeepsIndex(w.store, w.issued[jti], f)
    case Present(token, _, _, _, f) =>
      Answer(c, w, step).1.Rotated? ==>
        SaveKeepsIndex(w.store, NewClaims(c, w, step), f.save) && RevokeKeepsIndex(w.store, Presented(c, token).id, f.revoke)
    case Drop(jti, f) => RevokeKeepsIndex(w.store, jti, f)
    case _ => true
  }

  /** A save of a new, unlisted session keeps all sessions listed exactly under its condition, and never unlists another. */
  lemma SaveListsIff(c: Crypto, s: Store, claims: Claims, ua: string, ip: string, f: SaveFaults)
    requires AllListed(s) && ShortLived(s) && NoEmptySets(s)
    requires claims.id !in s.records && claims.id !in Members(s, claims.username)
    requires claims.expiresAt <= s.now + REFRESH_LIFE
    ensures var r := SaveIssued(c, s, claims, ua, ip, f);
            && (AllListed(r) <==> SaveKeepsIndex(s, claims, f))
            && (forall j :: j in r.records && j != claims.id ==> Listed(r, j))
  {
    var r, jti := SaveIssued(c, s, claims, ua, ip, f), claims.id;
    SaveRecords(c, s, claims, ua, ip, f);
    assert jti in r.records <==> !f.set_ && (f.sadd ==> f.del);
    assert jti in r.records ==> (Listed(r, jti) <==> SaveKeepsIndex(s, claims, f));
  }

  lemma RevokeListsIff(s: Store, jti: string, f: RevokeFaults)
    requires AllListed(s) && NoEmptySets(s)
    ensures AllListed(Revoke(s, jti, f).0) <==> RevokeKeepsIndex(s, jti, f)
  {
    var r := Revoke(s, jti, f).0;
    RevokeRecords(s, jti, f);
    forall j | j in r.records && j != jti
      ensures Listed(r, j)
    {
      var user := s.records[j].record.username;
      assert Listed(s, j) && j in Members(s, user) - {jti};
    }
    assert jti in r.records ==> Listed(s, jti) && (Listed(r, jti) <==> f.get || f.srem);
  }

  /** A revocation lists nothing that was not listed. */
  lemma RevokeListsNothing(s: Store, jti: string, f: RevokeFaults, j: string)
    requires NoEmptySets(s) && j in s.records && j != jti && !Listed(s, j)
    ensures j in Revoke(s, jti, f).0.records && !Listed(Revoke(s, jti, f).0, j)
  {
  }

  lemma RotationListsIff(c: Crypto, w: World, step: Step)
    requires Inv(c, w) && AllListed(w.store) && Possible(c, w, step) && step.Present? && Answer(c, w, step).1.Rotated?
    ensures AllListed(Next(c, w, step).store) <==> KeepsIndex(c, w, step)
  {
    var jti, claims, saved, f := Presented(c, step.token).id, NewClaims(c, w, step), AfterSave(c, w, step), step.faults;
    AnswerCases(c, w, step);
    assert Genuine(c, w, jti) && claims.id == step.newJti && jti != step.newJti;
    assert step.newJti !in Members(w.store, claims.username);
    SaveListsIff(c, w.store, claims, step.userAgent, step.ip, f.save);
    SaveRecords(c, w.store, claims, step.userAgent, step.ip, f.save);
    if AllListed(saved) {
      RevokeListsIff(saved, jti, f.revoke);
    } else {
      assert step.newJti in saved.records && !Listed(saved, step.newJti);
      RevokeListsNothing(saved, jti, f.revoke, step.newJti);
    }
  }

  /** From a world with all sessions listed, a step keeps them so exactly under its condition. */
  lemma NextListsIff(c: Crypto, w: World, step: Step)
    requires Inv(c, w) && AllListed(w.store) && Possible(c, w, step)
    ensures AllListed(Next(c, w, step).store) <==> KeepsIndex(c, w, step)
  {
    match step
    case Keep(jti, ua, ip, f) =>
      assert jti !in Members(w.store, w.issued[jti].username);
      SaveListsIff(c, w.store, w.issued[jti], ua, ip, f);
    case Present(_, _, _, _, _) =>
      AnswerCases(c, w, step);
      if Answer(c, w, step).1.Rotated? {
        RotationListsIff(c, w, step);
      }
    case Drop(jti, f) => RevokeListsIff(w.store, jti, f);
    case _ =>
  }

  ghost predicate RunKeepsIndex(c: Crypto, steps: seq<Step>, n: nat)
    requires n <= |steps|
  {
    forall k {:trigger At(c, steps, k)} :: 0 <= k < n ==> KeepsIndex(c, At(c, steps, k), steps[k])
  }

  ghost predicate AlwaysListed(c: Crypto, steps: seq<Step>, n: nat)
    requires n <= |steps|
  {
    forall k :: 0 <= k <= n ==> AllListed(At(c, steps, k).store)
  }

  /**
   Along a run every live session is in its user's set, and that set expires later than
   the record, in every world up to the n-th, exactly when every step keeps its condition.
   */
  lemma {:induction false} LiveSessionsAreListedIff(c: Crypto, steps: seq<Step>, n: nat)
    requires ValidRun(c, steps) && n <= |steps|
    ensures AlwaysListed(c, steps, n) <==> RunKeepsIndex(c, steps, n)
  {
    if n > 0 {
      var k := n - 1;
      LiveSessionsAreListedIff(c, steps, k);
      if AlwaysListed(c, steps, k) {
        RunKeepsInv(c, steps, k);
        assert Possible(c, At(c, steps, k), steps[k]) && AllListed(At(c, steps, k).store);
        NextListsIff(c, At(c, steps, k), steps[k]);
        assert At(c, steps, n) == Next(c, At(c, steps, k), steps[k]);
      }
    }
  }

  /** The step has no store errors. */
  predicate Faultless(step: Step) {
    match step
    case Keep(_, _, _, f) => f == NO_SAVE_FAULTS
    case Present(_, _, _, _, f) => f == NO_ROTATE_FAULTS
    case Drop(_, f) => f == NO_REVOKE_FAULTS
    case _ => true
  }

  /** Without store errors every live session is listed in every reachable world. */
  lemma LiveSessionsAreListed(c: Crypto, steps: seq<Step>, n: nat)
    requires ValidRun(c, steps) && n <= |steps| && forall k :: 0 <= k < |steps| ==> Faultless(steps[k])
    ensures AllListed(At(c, steps, n).store)
  {
    forall k | 0 <= k < n
      ensures KeepsIndex(c, At(c, steps, k), steps[k])
    {
      assert Faultless(steps[k]);
    }
    LiveSessionsAreListedIff(c, steps, n);
    assert AlwaysListed(c, steps, n);
  }

  /** A login whose listing fails, and so does the delete that should undo it, leaves a live session unlisted. */
  lemma UnlistedSession(c: Crypto, user: string)
    ensures var steps := Login(user, SaveFaults(false, true, true, false));
            && ValidRun(c, steps) && "a" in At(c, steps, 2).store.records && !Listed(At(c, steps, 2).store, "a")
            && Live(RevokeAll(At(c, steps, 2).store, user, RevokeAllFaults(false, false)).0, user) == {"a"}
  {
    LoginRuns(c, user, SaveFaults(false, true, true, false));
  }

  /** The live sessions of a user. */
  ghost function Live(s: Store, user: string): set<string> {
    set jti | jti in s.records && s.records[jti].record.username == user
  }

  lemma RevokeAllLeaves(s: Store, user: string)
    ensures Live(RevokeAll(s, user, RevokeAllFaults(false, false)).0, user) == Live(s, user) - Members(s, user)
    ensures Live(s, user) - Members(s, user) == {} <==> Live(s, user) <= Members(s, user)
    ensures AllListed(s) ==> Live(s, user) <= Members(s, user)
  {
    var live, members := Live(s, user), Members(s, user);
    assert live - members == {} ==> forall jti :: jti in live ==> jti !in live - members;
    assert AllListed(s) ==> forall jti :: jti in Live(s, user) ==> Listed(s, jti);
  }

  lemma RevokeAllSparesOthers(c: Crypto, w: World, user: string)
    requires Inv(c, w)
    ensures var s' := RevokeAll(w.store, user, RevokeAllFaults(false, false)).0;
            && (forall jti :: jti in w.store.records && w.store.records[jti].record.username != user ==>
                  jti in s'.records && s'.records[jti] == w.store.records[jti])
            && s'.sessions - {user} == w.store.sessions - {user}
  {
    forall jti | jti in w.store.records && jti in Members(w.store, user)
      ensures w.store.records[jti].record.username == user
    {
      assert OwnMember(w, user, jti) && Genuine(c, w, jti);
    }
  }

  /**
   Revoking all of a user's sessions, in any reachable world, never touches another user's
   records or index, and leaves the user no live session exactly when all of them were listed.
   */
  lemma RevokeAllIsComplete(c: Crypto, steps: seq<Step>, n: nat, user: string)
    requires ValidRun(c, steps) && n <= |steps|
    ensures var s := At(c, steps, n).store;
            var s' := RevokeAll(s, user, RevokeAllFaults(false, false)).0;
            && (Live(s', user) == {} <==> Live(s, user) <= Members(s, user))
            && (AllListed(s) ==> Live(s', user) == {})
            && (forall jti :: jti in s.records && s.records[jti].record.username != user ==>
                  jti in s'.records && s'.records[jti] == s.records[jti])
            && s'.sessions - {user} == s.sessions - {user}
  {
    RunKeepsInv(c, steps, n);
    RevokeAllSparesOthers(c, At(c, steps, n), user);
    RevokeAllLeaves(At(c, steps, n).store, user);
  }

  // ---------------------------------------------------------------- rotation conserves sessions

  /** What a faultless save and a faultless revoke of a listed session do. */
  lemma CleanSave(c: Crypto, s: Store, claims: Claims, ua: string, ip: string)
    ensures var r, jti, user := SaveIssued(c, s, claims, ua, ip, NO_SAVE_FAULTS), claims.id, claims.username;
            && jti in r.records && r.records == s.records[jti := r.records[jti]]
            && r.records[jti].record == Record(user, c.hash(Signed(c, claims)), claims.expiresAt, ua, ip)
            && Members(r, user) == Members(s, user) + {jti}
            && r.sessions - {user} == s.sessions - {user}
  {
  }

  lemma CleanRevoke(s: Store, jti: string)
    requires jti in s.records
    ensures var r, user := Revoke(s, jti, NO_REVOKE_FAULTS).0, s.records[jti].record.username;
            && r.records == s.records - {jti}
            && Members(r, user) == Members(s, user) - {jti}
            && r.sessions - {user} == s.sessions - {user}
  {
  }

  ghost predicate OneForAnother(s: Store, s': Store, jti: string, newJti: string, user: string) {
    && jti in s.records && newJti !in s.records
    && newJti in s'.records && s'.records == (s.records - {jti})[newJti := s'.records[newJti]]
    && s.records[jti].record.username == user && s'.records[newJti].record.username == user
  }

  lemma LiveAfter(s: Store, s': Store, jti: string, newJti: string, user: string, u: string)
    requires OneForAnother(s, s', jti, newJti, user)
    ensures Live(s', u) == if u == user then Live(s, user) - {jti} + {newJti} else Live(s, u)
  {
  }

  lemma SwapKeepsSize(a: set<string>, x: string, y: string)
    requires x in a && y !in a
    ensures |a - {x} + {y}| == |a|
  {
    assert |a - {x}| == |a| - 1;
  }

  /** One session of a user replaced by another keeps every user's number of sessions. */
  lemma ReplacementKeepsCounts(s: Store, s': Store, jti: string, newJti: string, user: string)
    requires OneForAnother(s, s', jti, newJti, user)
    ensures Live(s', user) == Live(s, user) - {jti} + {newJti}
    ensures forall u :: |Live(s', u)| == |Live(s, u)|
  {
    LiveAfter(s, s', jti, newJti, user, user);
    forall u
      ensures |Live(s', u)| == |Live(s, u)|
    {
      LiveAfter(s, s', jti, newJti, user, u);
      SwapKeepsSize(Live(s, user), jti, newJti);
    }
  }

  /** What a successful rotation has done to the store. */
  ghost predicate Replaced(c: Crypto, s: Store, s': Store, spent: Claims, issued: Claims, ua: string, ip: string) {
    var jti, newJti, user := spent.id, issued.id, spent.username;
    && jti in Live(s, user) && newJti !in s.records && newJti in s'.records
    && s'.records == (s.records - {jti})[newJti := s'.records[newJti]]
    && s'.records[newJti].record == Record(user, c.hash(Signed(c, issued)), issued.expiresAt, ua, ip)
    && Live(s', user) == Live(s, user) - {jti} + {newJti}
    && Members(s', user) == Members(s, user) - {jti} + {newJti}
    && s'.sessions - {user} == s.sessions - {user}
    && (forall u :: |Live(s', u)| == |Live(s, u)|)
  }

  /**
   With a healthy store a rotation replaces one session by one new session of the same
   user, in the records and in the index, and touches nothing else; a refusal touches
   nothing at all, but for a hash mismatch, which revokes the sessions of the record's user.
   */
  lemma RotationConserves(c: Crypto, w: World, step: Step)
    requires Inv(c, w) && Possible(c, w, step)
    requires step.Present? && step.faults == NO_ROTATE_FAULTS
    ensures var (s', outcome) := Answer(c, w, step);
            match outcome
            case Refused(ReuseDetected) =>
              s' == RevokeAll(w.store, Presented(c, step.token).username, RevokeAllFaults(false, false)).0
            case Refused(_) => s' == w.store
            case Rotated(_, refresh, jti) =>
              && jti == step.newJti && refresh == Signed(c, NewClaims(c, w, step))
              && Replaced(c, w.store, s', Presented(c, step.token), NewClaims(c, w, step), step.userAgent, step.ip)
  {
    var (s', outcome) := Answer(c, w, step);
    AnswerCases(c, w, step);
    var jti, user := Presented(c, step.token).id, Presented(c, step.token).username;
    assert jti in w.store.records ==> Genuine(c, w, jti);
    if outcome.Rotated? {
      var saved := AfterSave(c, w, step);
      CleanSave(c, w.store, NewClaims(c, w, step), step.userAgent, step.ip);
      assert step.newJti !in w.store.records && step.newJti != jti;
      CleanRevoke(saved, jti);
      assert s'.records == (w.store.records - {jti})[step.newJti := s'.records[step.newJti]];
      assert Members(s', user) == Members(w.store, user) - {jti} + {step.newJti};
      ReplacementKeepsCounts(w.store, s', jti, step.newJti, user);
    }
  }
}
