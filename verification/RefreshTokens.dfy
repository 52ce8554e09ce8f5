/**
 Refresh-token sessions and their rotation (internal/auth/auth.go).

 Redis is a clock, a map of session records and a map of per-user index sets; a key
 is gone from the moment its time to live runs out. Times are milliseconds. Each
 exported operation is one atomic step, and each Redis command inside it may fail
 without effect, as its Faults say. A token is a text; encoding, decoding, signing and
 hashing are fixed but arbitrary functions. Several texts may decode to the same claims.
 */
module RefreshTokens {
  import opened Wrappers

  const SECOND := 1000
  const DAY := 24 * 60 * 60 * SECOND
  const ACCESS_LIFE := 15 * 60 * SECOND
  const REFRESH_LIFE := 7 * DAY
  const INDEX_LIFE := 8 * DAY

  // ---------------------------------------------------------------- tokens

  /** The registered claims jti (id) and exp (expiresAt), and the private claim username. */
  datatype Claims = Claims(username: string, id: string, expiresAt: nat)

  type Token = string

  /** What a text decodes to. */
  datatype Decoded = Decoded(claims: Claims, signature: string)

  datatype Crypto = Crypto(
    sign: Claims -> string, encode: Decoded -> Token, decode: Token -> Option<Decoded>, hash: Token -> string)

  datatype Refusal = BadToken | MissingJti | StoreError | NotFound | ReuseDetected | SigningFailed

  /** The two new tokens, and the jti of the second. */
  datatype Outcome = Refused(reason: Refusal) | Rotated(access: Token, refresh: Token, jti: string)

  function Signed(c: Crypto, claims: Claims): Token {
    c.encode(Decoded(claims, c.sign(claims)))
  }

  /** What the library has signed, it can read. */
  ghost predicate ReadsItsOwn(c: Crypto) {
    forall claims :: c.decode(Signed(c, claims)) == Some(Decoded(claims, c.sign(claims)))
  }

  /** jwt.NewNumericDate keeps whole seconds. */
  function NumericDate(time: nat): nat {
    time / SECOND * SECOND
  }

  function AccessClaims(now: nat, username: string): Claims {
    Claims(username, "", NumericDate(now + ACCESS_LIFE))
  }

  function RefreshClaims(now: nat, username: string, jti: string): Claims {
    Claims(username, jti, NumericDate(now + REFRESH_LIFE))
  }

  /** VerifyToken: a text that decodes, a good signature and an expiry still ahead. */
  function VerifyToken(c: Crypto, now: nat, token: Token): Option<Claims> {
    var decoded :- c.decode(token);
    if decoded.signature == c.sign(decoded.claims) && now < decoded.claims.expiresAt then Some(decoded.claims) else None
  }

  /** A signed token verifies to its own claims exactly until it expires. */
  lemma SignedVerifiesUntil(c: Crypto, now: nat, claims: Claims)
    requires ReadsItsOwn(c)
    ensures VerifyToken(c, now, Signed(c, claims)) == if now < claims.expiresAt then Some(claims) else None
  {
    assert c.decode(Signed(c, claims)) == Some(Decoded(claims, c.sign(claims)));
  }

  // ---------------------------------------------------------------- the store

  datatype Record = Record(username: string, tokenHash: string, expiresAt: nat, userAgent: string, ip: string)

  /** refresh:{jti} */
  datatype Stored = Stored(record: Record, expiry: nat)

  /** user_refresh:{username}; the key has no expiry until EXPIRE gives it one. */
  datatype IndexSet = IndexSet(members: set<string>, expiry: Option<nat>)

  datatype Store = Store(now: nat, records: map<string, Stored>, sessions: map<string, IndexSet>)

  /** Which Redis commands of an operation fail. */
  datatype SaveFaults = SaveFaults(set_: bool, sadd: bool, del: bool, expire: bool)
  datatype RevokeFaults = RevokeFaults(get: bool, srem: bool, del: bool)
  datatype RevokeAllFaults = RevokeAllFaults(smembers: bool, exec: bool)
  datatype RotateFaults = RotateFaults(
    get: bool, signing: bool, save: SaveFaults, revoke: RevokeFaults, revokeAll: RevokeAllFaults)

  const NO_SAVE_FAULTS := SaveFaults(false, false, false, false)
  const NO_REVOKE_FAULTS := RevokeFaults(false, false, false)
  const NO_ROTATE_FAULTS := RotateFaults(false, false, NO_SAVE_FAULTS, NO_REVOKE_FAULTS, RevokeAllFaults(false, false))

  function Members(s: Store, user: string): set<string> {
    if user in s.sessions then s.sessions[user].members else {}
  }

  function Expiry(s: Store, user: string): Option<nat> {
    if user in s.sessions then s.sessions[user].expiry else None
  }

  /** SREM; a set left empty is deleted. */
  function WithoutMember(s: Store, user: string, jti: string): Store {
    var rest := Members(s, user) - {jti};
    if user !in s.sessions then s
    else if rest == {} then s.(sessions := s.sessions - {user})
    else s.(sessions := s.sessions[user := IndexSet(rest, Expiry(s, user))])
  }

  /** The clock moves on and keys past their expiry are gone. */
  function Elapse(s: Store, ms: nat): Store {
    var now := s.now + ms;
    Store(now,
          map j | j in s.records && now < s.records[j].expiry :: s.records[j],
          map u | u in s.sessions && (s.sessions[u].expiry.Some? ==> now < s.sessions[u].expiry.value) :: s.sessions[u])
  }

  function TimeToLive(now: nat, expiresAt: nat): nat {
    if now < expiresAt then expiresAt - now else SECOND
  }

  function Save(
      c: Crypto, s: Store, jti: string, token: Token, username: string, userAgent: string, ip: string,
      expiresAt: nat, f: SaveFaults): (Store, bool)
  {
    var stored := Stored(Record(username, c.hash(token), expiresAt, userAgent, ip), s.now + TimeToLive(s.now, expiresAt));
    var index := IndexSet(Members(s, username) + {jti}, if f.expire then Expiry(s, username) else Some(s.now + INDEX_LIFE));
    if f.set_ then (s, false)
    else if !f.sadd then (s.(records := s.records[jti := stored], sessions := s.sessions[username := index]), true)
    else if f.del then (s.(records := s.records[jti := stored]), false)
    else (s.(records := s.records - {jti}), false)
  }

  function Revoke(s: Store, jti: string, f: RevokeFaults): (Store, bool) {
    var s' := if !f.get && jti in s.records && !f.srem then WithoutMember(s, s.records[jti].record.username, jti) else s;
    if f.del then (s', false) else (s'.(records := s'.records - {jti}), true)
  }

  function RevokeAll(s: Store, username: string, f: RevokeAllFaults): (Store, bool) {
    if f.smembers || f.exec then (s, false)
    else (s.(records := s.records - Members(s, username), sessions := s.sessions - {username}), true)
  }

  function Rotate(
      c: Crypto, s: Store, token: Token, newJti: string, userAgent: string, ip: string, f: RotateFaults)
    : (Store, Outcome)
  {
    var claims := VerifyToken(c, s.now, token);
    if claims.None? then (s, Refused(BadToken))
    else if claims.value.id == "" then (s, Refused(MissingJti))
    else
      var jti, username := claims.value.id, claims.value.username;
      if f.get then (s, Refused(StoreError))
      else if jti !in s.records then (s, Refused(NotFound))
      else if s.records[jti].record.tokenHash != c.hash(token) then
        (RevokeAll(s, s.records[jti].record.username, f.revokeAll).0, Refused(ReuseDetected))
      else if f.signing then (s, Refused(SigningFailed))
      else
        var newClaims := RefreshClaims(s.now, username, newJti);
        var refresh := Signed(c, newClaims);
        var saved := Save(c, s, newJti, refresh, username, userAgent, ip, newClaims.expiresAt, f.save).0;
        (Revoke(saved, jti, f.revoke).0, Rotated(Signed(c, AccessClaims(s.now, username)), refresh, newJti))
  }

  /** An access token is of no use for a rotation: it is refused for want of a jti, or as bad once it has expired. */
  lemma AccessTokenIsRefused(
      c: Crypto, s: Store, issuedAt: nat, username: string, newJti: string, userAgent: string, ip: string, f: RotateFaults)
    requires ReadsItsOwn(c)
    ensures var token := Signed(c, AccessClaims(issuedAt, username));
            Rotate(c, s, token, newJti, userAgent, ip, f)
            == (s, Refused(if s.now < NumericDate(issuedAt + ACCESS_LIFE) then MissingJti else BadToken))
  {
    SignedVerifiesUntil(c, s.now, AccessClaims(issuedAt, username));
  }

  /** The token verifies, to this user and jti. */
  ghost predicate VerifiesTo(c: Crypto, now: nat, token: Token, username: string, jti: string) {
    var claims := VerifyToken(c, now, token);
    claims.Some? && claims.value.username == username && claims.value.id == jti
  }

  /**
   The tokens of a login or a rotation at time t: the access token is good for 15 minutes
   and the refresh token for 7 days, but for the part of a second that is cut off, and
   both are in the user's name; the first has no jti and the second has the new one.
   */
  lemma NewTokensVerify(c: Crypto, t: nat, ms: nat, username: string, jti: string)
    requires ReadsItsOwn(c)
    ensures var access := Signed(c, AccessClaims(t, username));
            && (ms <= 899000 ==> VerifiesTo(c, t + ms, access, username, ""))
            && (ms >= 900000 ==> VerifyToken(c, t + ms, access).None?)
    ensures var refresh := Signed(c, RefreshClaims(t, username, jti));
            && (ms <= 604799000 ==> VerifiesTo(c, t + ms, refresh, username, jti))
            && (ms >= 604800000 ==> VerifyToken(c, t + ms, refresh).None?)
  {
    SignedVerifiesUntil(c, t + ms, AccessClaims(t, username));
    SignedVerifiesUntil(c, t + ms, RefreshClaims(t, username, jti));
  }

  /** A rotation returns tokens in the name of the user the presented token verifies to. */
  lemma RotationTokens(
      c: Crypto, s: Store, token: Token, newJti: string, userAgent: string, ip: string, f: RotateFaults, ms: nat)
    requires ReadsItsOwn(c) && Rotate(c, s, token, newJti, userAgent, ip, f).1.Rotated?
    ensures VerifyToken(c, s.now, token).Some?
    ensures var outcome := Rotate(c, s, token, newJti, userAgent, ip, f).1;
            var username := VerifyToken(c, s.now, token).value.username;
            && outcome.jti == newJti
            && (ms <= 899000 ==> VerifiesTo(c, s.now + ms, outcome.access, username, ""))
            && (ms >= 900000 ==> VerifyToken(c, s.now + ms, outcome.access).None?)
            && (ms <= 604799000 ==> VerifiesTo(c, s.now + ms, outcome.refresh, username, newJti))
            && (ms >= 604800000 ==> VerifyToken(c, s.now + ms, outcome.refresh).None?)
  {
    NewTokensVerify(c, s.now, ms, VerifyToken(c, s.now, token).value.username, newJti);
  }

  /** A text that does not decode, or not to claims under a good signature, is refused and changes nothing. */
  lemma ForgedIsRefused(
      c: Crypto, s: Store, token: Token, newJti: string, userAgent: string, ip: string, f: RotateFaults)
    requires forall claims :: c.decode(token) != Some(Decoded(claims, c.sign(claims)))
    ensures Rotate(c, s, token, newJti, userAgent, ip, f) == (s, Refused(BadToken))
  {
    if c.decode(token).Some? {
      var decoded := c.decode(token).value;
      assert c.decode(token) != Some(Decoded(decoded.claims, c.sign(decoded.claims)));
    }
  }

  /** What failing commands answer: a failed read comes before all else, and a failed signature stands in for an acceptance. */
  lemma FaultsAnswer(c: Crypto, s: Store, token: Token, newJti: string, userAgent: string, ip: string, f: RotateFaults)
    requires !f.get && !f.signing
    ensures Rotate(c, s, token, newJti, userAgent, ip, f).1.Rotated? ==>
              Rotate(c, s, token, newJti, userAgent, ip, f.(signing := true)) == (s, Refused(SigningFailed))
    ensures Rotate(c, s, token, newJti, userAgent, ip, f).1 !in {Refused(BadToken), Refused(MissingJti)} ==>
              Rotate(c, s, token, newJti, userAgent, ip, f.(get := true)) == (s, Refused(StoreError))
  {
  }

  // ---------------------------------------------------------------- how long a saved session lives

  /**
   A session saved without faults lives exactly until its token expires (or for one second,
   if the token has expired already), with all its data; its user's set lives 8 days.
   */
  lemma SavedUntilExpiry(
      c: Crypto, s: Store, jti: string, token: Token, user: string, ua: string, ip: string, expiresAt: nat, ms: nat)
    ensures var later := Elapse(Save(c, s, jti, token, user, ua, ip, expiresAt, NO_SAVE_FAULTS).0, ms);
            && later.now == s.now + ms
            && (jti in later.records <==> if s.now < expiresAt then later.now < expiresAt else ms < 1000)
            && (jti in later.records ==> later.records[jti].record == Record(user, c.hash(token), expiresAt, ua, ip))
            && (user in later.sessions <==> ms < 691200000)
            && (ms < 691200000 ==> Members(later, user) == Members(s, user) + {jti})
  {
  }

  /** A save says truly whether the session is stored and listed; a failed one leaves the store as it was, unless its undoing fails too. */
  lemma SaveReports(
      c: Crypto, s: Store, jti: string, token: Token, user: string, ua: string, ip: string, expiresAt: nat, f: SaveFaults)
    requires jti !in s.records && jti !in Members(s, user)
    ensures var (r, ok) := Save(c, s, jti, token, user, ua, ip, expiresAt, f);
            && (ok <==> jti in r.records && jti in Members(r, user))
            && (!ok ==> r.sessions == s.sessions && (r == s || (f.sadd && f.del)))
            && (!f.set_ && !f.sadd ==> ok)
  {
    assert s.records - {jti} == s.records;
  }

  /** A revocation says truly whether the record is gone, and fails only if its delete does. */
  lemma RevokeReports(s: Store, jti: string, f: RevokeFaults)
    requires jti in s.records
    ensures var (r, ok) := Revoke(s, jti, f); (ok <==> jti !in r.records) && (ok <==> !f.del)
  {
  }

  /** So does revoking all: either nothing has changed, or no listed session and no listing is left. */
  lemma RevokeAllReports(s: Store, user: string, f: RevokeAllFaults)
    ensures var (r, ok) := RevokeAll(s, user, f);
            && (ok <==> !f.smembers && !f.exec)
            && (!ok ==> r == s)
            && (ok ==> Members(r, user) == {} && forall jti :: jti in r.records <==> jti in s.records && jti !in Members(s, user))
  {
  }

  // ---------------------------------------------------------------- the operations

  /** One command of a revoke-all pipeline. */
  datatype Command = Del(jti: string) | SRem(jti: string)

  function Apply(s: Store, user: string, command: Command): Store {
    match command
    case Del(jti) => s.(records := s.records - {jti})
    case SRem(jti) => WithoutMember(s, user, jti)
  }

  function ApplyAll(s: Store, user: string, pipe: seq<Command>): Store {
    if pipe == [] then s
    else Apply(ApplyAll(s, user, pipe[..|pipe| - 1]), user, pipe[|pipe| - 1])
  }

  /** Redis has no empty sets. */
  ghost predicate NoEmptySets(s: Store) {
    forall u :: u in s.sessions ==> s.sessions[u].members != {}
  }

  function Dels(pipe: seq<Command>): set<string> {
    set i | 0 <= i < |pipe| && pipe[i].Del? :: pipe[i].jti
  }

  function SRems(pipe: seq<Command>): set<string> {
    set i | 0 <= i < |pipe| && pipe[i].SRem? :: pipe[i].jti
  }

  lemma {:induction false} PipelineEffect(s: Store, user: string, pipe: seq<Command>)
    requires NoEmptySets(s)
    ensures var r := ApplyAll(s, user, pipe);
            && NoEmptySets(r) && r.now == s.now && r.records == s.records - Dels(pipe)
            && Members(r, user) == Members(s, user) - SRems(pipe)
            && r.sessions - {user} == s.sessions - {user}
  {
    if pipe != [] {
      var n := |pipe| - 1;
      PipelineEffect(s, user, pipe[..n]);
      assert Dels(pipe) == Dels(pipe[..n]) + (if pipe[n].Del? then {pipe[n].jti} else {});
      assert SRems(pipe) == SRems(pipe[..n]) + (if pipe[n].SRem? then {pipe[n].jti} else {});
    }
  }

  /** Deleting and unlisting every member is what RevokeAll says. */
  lemma PipelineRevokesAll(s: Store, user: string, pipe: seq<Command>)
    requires NoEmptySets(s) && Dels(pipe) == SRems(pipe) == Members(s, user)
    ensures ApplyAll(s, user, pipe) == RevokeAll(s, user, RevokeAllFaults(false, false)).0
  {
    PipelineEffect(s, user, pipe);
    var r := ApplyAll(s, user, pipe);
    assert user !in r.sessions;
    assert r.sessions == r.sessions - {user};
  }

  /** The Redis client and the operations on it. */
  class SessionStore {
    const crypto: Crypto
    var now: nat
    var records: map<string, Stored>
    var sessions: map<string, IndexSet>

    constructor (crypto: Crypto)
      ensures this.crypto == crypto && Contents() == Store(0, map[], map[])
    {
      this.crypto := crypto;
      now, records, sessions := 0, map[], map[];
    }

    ghost function Contents(): Store
      reads this
    {
      Store(now, records, sessions)
    }

    method CreateToken(username: string, jti: string, signingFails: bool) returns (tokens: Option<(Token, Token)>)
      ensures tokens == if signingFails then None
                        else Some((Signed(crypto, AccessClaims(now, username)), Signed(crypto, RefreshClaims(now, username, jti))))
      ensures tokens.Some? && ReadsItsOwn(crypto) ==>
                && VerifiesTo(crypto, now + 899000, tokens.value.0, username, "")
                && VerifiesTo(crypto, now + 604799000, tokens.value.1, username, jti)
    {
      if signingFails {
        return None;
      }
      var access := Signed(crypto, Claims(username, "", NumericDate(now + ACCESS_LIFE)));
      var refresh := Signed(crypto, Claims(username, jti, NumericDate(now + REFRESH_LIFE)));
      if ReadsItsOwn(crypto) {
        NewTokensVerify(crypto, now, 899000, username, jti);
        NewTokensVerify(crypto, now, 604799000, username, jti);
      }
      return Some((access, refresh));
    }

    method SaveRefreshToken(jti: string, token: Token, username: string, userAgent: string, ip: string,
                            expiresAt: nat, f: SaveFaults) returns (ok: bool)
      modifies this
      ensures (Contents(), ok) == Save(crypto, old(Contents()), jti, token, username, userAgent, ip, expiresAt, f)
    {
      var rec := Record(username, crypto.hash(token), expiresAt, userAgent, ip);
      var ttl := if expiresAt <= now then SECOND else expiresAt - now;
      if f.set_ {
        return false;
      }
      records := records[jti := Stored(rec, now + ttl)];
      if f.sadd {
        if !f.del {
          records := records - {jti};
          assert records == old(records) - {jti};
        }
        return false;
      }
      if username in sessions {
        sessions := sessions[username := sessions[username].(members := sessions[username].members + {jti})];
      } else {
        sessions := sessions[username := IndexSet({jti}, None)];
      }
      if !f.expire {
        sessions := sessions[username := sessions[username].(expiry := Some(now + INDEX_LIFE))];
      }
      assert sessions[username].members == Members(old(Contents()), username) + {jti};
      assert sessions == old(sessions)[username := sessions[username]];
      return true;
    }

    method GetRefreshRecord(jti: string, fails: bool) returns (r: Result<Option<Record>, Refusal>)
      ensures r == if fails then Err(StoreError)
                   else Ok(if jti in records then Some(records[jti].record) else None)
    {
      if fails {
        return Err(StoreError);
      }
      return Ok(if jti in records then Some(records[jti].record) else None);
    }

    method RemoveMember(user: string, jti: string)
      modifies this
      ensures Contents() == WithoutMember(old(Contents()), user, jti)
    {
      if user in sessions {
        var rest := sessions[user].members - {jti};
        if rest == {} {
          sessions := sessions - {user};
        } else {
          sessions := sessions[user := sessions[user].(members := rest)];
        }
      }
    }

    method RevokeRefreshToken(jti: string, f: RevokeFaults) returns (ok: bool)
      modifies this
      ensures (Contents(), ok) == Revoke(old(Contents()), jti, f)
    {
      if !f.get && jti in records {
        var user := records[jti].record.username;
        if !f.srem {
          RemoveMember(user, jti);
        }
      }
      if f.del {
        return false;
      }
      records := records - {jti};
      return true;
    }

    /** MULTI/EXEC: the queued commands, in order. */
    method Exec(user: string, pipe: seq<Command>)
      modifies this
      ensures Contents() == ApplyAll(old(Contents()), user, pipe)
    {
      for i := 0 to |pipe|
        invariant Contents() == ApplyAll(old(Contents()), user, pipe[..i])
      {
        match pipe[i] {
          case Del(jti) => records := records - {jti};
          case SRem(jti) => RemoveMember(user, jti);
        }
        assert pipe[..i + 1][..i] == pipe[..i];
      }
      assert pipe[..|pipe|] == pipe;
    }

    method RevokeAllUserRefreshTokens(username: string, f: RevokeAllFaults) returns (ok: bool)
      requires NoEmptySets(Contents())
      modifies this
      ensures (Contents(), ok) == RevokeAll(old(Contents()), username, f)
    {
      if f.smembers {
        return false;
      }
      var jtis := if username in sessions then sessions[username].members else {};
      var pipe := [];
      var todo := jtis;
      while todo != {}
        invariant todo <= jtis
        invariant Dels(pipe) == SRems(pipe) == jtis - todo
      {
        var j :| j in todo;
        ghost var before := pipe;
        pipe := pipe + [Del(j), SRem(j)];
        todo := todo - {j};
        assert Dels(pipe) == Dels(before) + {j} && SRems(pipe) == SRems(before) + {j} by {
          Queued(before, j);
        }
      }
      if f.exec {
        return false;
      }
      Exec(username, pipe);
      PipelineRevokesAll(old(Contents()), username, pipe);
      return true;
    }

    method ValidateRefreshAndRotate(token: Token, newJti: string, userAgent: string, ip: string, f: RotateFaults)
      returns (outcome: Outcome)
      requires NoEmptySets(Contents()) && ReadsItsOwn(crypto)
      modifies this
      ensures (Contents(), outcome) == Rotate(crypto, old(Contents()), token, newJti, userAgent, ip, f)
    {
      var claims := VerifyToken(crypto, now, token);
      if claims.None? {
        return Refused(BadToken);
      }
      var jti := claims.value.id;
      if jti == "" {
        return Refused(MissingJti);
      }
      var rec := GetRefreshRecord(jti, f.get);
      if rec.Err? {
        return Refused(rec.error);
      }
      if rec.value.None? {
        return Refused(NotFound);
      }
      if rec.value.value.tokenHash != crypto.hash(token) {
        var _ := RevokeAllUserRefreshTokens(rec.value.value.username, f.revokeAll);
        return Refused(ReuseDetected);
      }
      var tokens := CreateToken(claims.value.username, newJti, f.signing);
      if tokens.None? {
        return Refused(SigningFailed);
      }
      var (newAccess, newRefresh) := tokens.value;
      SignedVerifiesUntil(crypto, now, RefreshClaims(now, claims.value.username, newJti));
      var newClaims := VerifyToken(crypto, now, newRefresh);
      var _ := SaveRefreshToken(newJti, newRefresh, claims.value.username, userAgent, ip, newClaims.value.expiresAt, f.save);
      var _ := RevokeRefreshToken(jti, f.revoke);
      return Rotated(newAccess, newRefresh, newJti);
    }

    /** Time passes; Redis drops what has expired. */
    method Tick(ms: nat)
      modifies this
      ensures Contents() == Elapse(old(Contents()), ms)
    {
      now := now + ms;
      records := map j | j in records && now < records[j].expiry :: records[j];
      sessions := map u | u in sessions && (sessions[u].expiry.Some? ==> now < sessions[u].expiry.value) :: sessions[u];
    }
  }

  lemma Queued(pipe: seq<Command>, j: string)
    ensures Dels(pipe + [Del(j), SRem(j)]) == Dels(pipe) + {j}
    ensures SRems(pipe + [Del(j), SRem(j)]) == SRems(pipe) + {j}
  {
    var longer := pipe + [Del(j), SRem(j)];
    assert longer[|pipe|] == Del(j) && longer[|pipe| + 1] == SRem(j);
    assert forall i :: 0 <= i < |pipe| ==> longer[i] == pipe[i];
  }
}
