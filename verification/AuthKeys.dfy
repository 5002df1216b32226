/**
 Token revocation through Redis: the key formats of contract/authredis/keys.go, the writer in
 auth-service and the reader in api-gateway (internal/middleware/tokenverify.go).
 */
module AuthKeys {
  import opened Wrappers
  import opened Decimal

  // ---------- keys ----------

  function SessionBlacklistKey(sid: string): string {
    "blacklist:sid:" + sid
  }

  function UserRevokedAtKey(principalType: string, principalID: int): string {
    "user_revoked_at:" + principalType + ":" + FormatInt(principalID)
  }

  predicate IsStale(tokenIAT: int, revokedAt: int) {
    revokedAt != 0 && tokenIAT < revokedAt
  }

  /** The texts both services rely on. */
  lemma KeyTexts(sid: string, kind: string)
    ensures SessionBlacklistKey(sid) == "blacklist:sid:" + sid
    ensures UserRevokedAtKey(kind, 5) == "user_revoked_at:" + kind + ":5"
    ensures UserRevokedAtKey(kind, -5) == "user_revoked_at:" + kind + ":-5"
  {
  }

  /** The last colon decides where a key splits. */
  lemma LastColon(a: string, x: string, b: string, y: string)
    requires a + ":" + x == b + ":" + y && ':' !in x && ':' !in y
    ensures a == b && x == y
  {
    var s := a + ":" + x;
    assert s[|a|] == ':' && forall k :: |a| < k < |s| ==> s[k] in x;
    assert s[|b|] == ':' && forall k :: |b| < k < |s| ==> s[k] in y;
    assert a == s[..|a|] && b == s[..|b|];
    assert x == s[|a| + 1..] && y == s[|b| + 1..];
  }

  lemma KeyTail(t: string, i: int)
    ensures |UserRevokedAtKey(t, i)| >= 16 && UserRevokedAtKey(t, i)[16..] == t + ":" + FormatInt(i)
  {
    assert UserRevokedAtKey(t, i) == "user_revoked_at:" + (t + ":" + FormatInt(i));
  }

  /** One epoch key per principal, whatever characters the principal type contains. */
  lemma RevokedKeyInjective(t: string, i: int, u: string, j: int)
    requires UserRevokedAtKey(t, i) == UserRevokedAtKey(u, j)
    ensures t == u && i == j
  {
    KeyTail(t, i);
    KeyTail(u, j);
    NoColon(i);
    NoColon(j);
    LastColon(t, FormatInt(i), u, FormatInt(j));
    FormatInjective(i, j);
  }

  /** One blacklist key per session, none of which is an epoch key. */
  lemma SessionKeysApart(a: string, b: string, t: string, i: int)
    ensures SessionBlacklistKey(a) == SessionBlacklistKey(b) ==> a == b
    ensures SessionBlacklistKey(a) != UserRevokedAtKey(t, i)
  {
    assert a == SessionBlacklistKey(a)[14..];
    assert b == SessionBlacklistKey(b)[14..];
    assert SessionBlacklistKey(a)[0] == 'b';
    assert UserRevokedAtKey(t, i)[0] == 'u';
  }

  // ---------- the string store and the typed store ----------

  datatype Principal = Principal(kind: string, id: int)

  datatype Event =
    | Revoke(who: Principal, at: int)   // the principal's epoch is set to `at`
    | Logout(sid: string)               // the session is blacklisted

  type Redis = map<string, string>

  function Write(r: Redis, e: Event): Redis {
    match e
    case Revoke(who, at) => r[UserRevokedAtKey(who.kind, who.id) := FormatInt(at)]
    case Logout(sid) => r[SessionBlacklistKey(sid) := "1"]
  }

  function WriteAll(events: seq<Event>): Redis {
    if events == [] then map[] else Write(WriteAll(events[..|events| - 1]), events[|events| - 1])
  }

  /** The revocation times of one principal, oldest first. */
  function Log(events: seq<Event>, who: Principal): seq<int> {
    if events == [] then []
    else
      var last := events[|events| - 1];
      Log(events[..|events| - 1], who) + (if last.Revoke? && last.who == who then [last.at] else [])
  }

  predicate LoggedOut(events: seq<Event>, sid: string) {
    Logout(sid) in events
  }

  /** What a principal's key holds after any history: the last time written for that principal, and nothing else's. */
  lemma {:induction false} EpochRefines(events: seq<Event>, who: Principal)
    ensures var key, log := UserRevokedAtKey(who.kind, who.id), Log(events, who);
      && (key in WriteAll(events) <==> log != [])
      && (log != [] ==> WriteAll(events)[key] == FormatInt(log[|log| - 1]))
  {
    if events != [] {
      var pre, last := events[..|events| - 1], events[|events| - 1];
      EpochRefines(pre, who);
      match last {
        case Revoke(w, _) =>
          if UserRevokedAtKey(w.kind, w.id) == UserRevokedAtKey(who.kind, who.id) {
            RevokedKeyInjective(w.kind, w.id, who.kind, who.id);
          }
        case Logout(sid) => SessionKeysApart(sid, sid, who.kind, who.id);
      }
    }
  }

  lemma {:induction false} BlacklistRefines(events: seq<Event>, sid: string)
    ensures SessionBlacklistKey(sid) in WriteAll(events) <==> LoggedOut(events, sid)
  {
    if events != [] {
      var pre, last := events[..|events| - 1], events[|events| - 1];
      BlacklistRefines(pre, sid);
      assert events == pre + [last];
      match last {
        case Revoke(w, _) => SessionKeysApart(sid, sid, w.kind, w.id);
        case Logout(other) => SessionKeysApart(sid, other, "", 0);
      }
    }
  }

  // ---------- one epoch against the whole log ----------

  function Last(log: seq<int>): int {
    if log == [] then 0 else log[|log| - 1]
  }

  predicate Ascending(log: seq<int>) {
    forall i, j :: 0 <= i < j < |log| ==> log[i] <= log[j]
  }

  predicate Positive(log: seq<int>) {
    forall i :: 0 <= i < |log| ==> log[i] > 0
  }

  predicate RevokedAfter(log: seq<int>, iat: int) {
    exists i :: 0 <= i < |log| && iat < log[i]
  }

  /** Keeping only the last time loses nothing, and no revocation is ever forgotten as the log grows. */
  lemma OneEpochIsEnough(log: seq<int>, iat: int)
    requires Ascending(log) && Positive(log)
    ensures IsStale(iat, Last(log)) <==> RevokedAfter(log, iat)
    ensures forall k :: 0 <= k <= |log| && IsStale(iat, Last(log[..k])) ==> IsStale(iat, Last(log))
  {
    if log != [] {
      assert log[|log| - 1] > 0;
    }
  }

  /** The last epoch written is not zero and none before it is later. */
  predicate LastIsLatest(log: seq<int>) {
    log == [] || (Last(log) != 0 && forall i :: 0 <= i < |log| ==> log[i] <= Last(log))
  }

  /** The last time stands for the whole log exactly when it is a maximum of the log other than zero. */
  lemma OneEpochExactly(log: seq<int>)
    ensures (forall iat :: IsStale(iat, Last(log)) <==> RevokedAfter(log, iat)) <==> LastIsLatest(log)
  {
    if log != [] {
      assert log[|log| - 1] == Last(log);
      if i :| 0 <= i < |log| && log[i] > Last(log) {
        assert RevokedAfter(log, Last(log)) && !IsStale(Last(log), Last(log));
      } else {
        assert RevokedAfter(log, Last(log) - 1);
        assert forall iat :: RevokedAfter(log, iat) <==> iat < Last(log);
      }
    }
  }

  // ---------- the gateway's verdict ----------

  /** A token's claims; `iat` is optional. */
  datatype Token = Token(who: Principal, sid: string, iat: Option<int>)

  datatype Verdict = Unauthorized | TokenExpired | Accepted

  /** The gateway's revocation checks; an unreadable epoch counts as none. */
  function Check(r: Redis, t: Token): Verdict {
    var key := UserRevokedAtKey(t.who.kind, t.who.id);
    if t.sid != "" && SessionBlacklistKey(t.sid) in r then Unauthorized
    else if t.iat.Some? && key in r && ParseInt(r[key]).Some? && IsStale(t.iat.value, ParseInt(r[key]).value) then TokenExpired
    else Accepted
  }

  /** The verdict the full history of logouts and revocations calls for. */
  function Demanded(events: seq<Event>, t: Token): Verdict {
    if t.sid != "" && LoggedOut(events, t.sid) then Unauthorized
    else if t.iat.Some? && RevokedAfter(Log(events, t.who), t.iat.value) then TokenExpired
    else Accepted
  }

  /** Epochs are int64. */
  predicate Storable(log: seq<int>) {
    forall i :: 0 <= i < |log| ==> IsInt64(log[i])
  }

  /** What the gateway decides, by the last epoch written for the token's principal. */
  lemma CheckMeans(events: seq<Event>, t: Token)
    requires Storable(Log(events, t.who))
    ensures Check(WriteAll(events), t) ==
      if t.sid != "" && LoggedOut(events, t.sid) then Unauthorized
      else if t.iat.Some? && IsStale(t.iat.value, Last(Log(events, t.who))) then TokenExpired
      else Accepted
  {
    var log := Log(events, t.who);
    EpochRefines(events, t.who);
    BlacklistRefines(events, t.sid);
    if log != [] {
      PrintParse(log[|log| - 1]);
      assert IsInt64(log[|log| - 1]);
    }
  }

  /**
   For every history of logouts and revocations, the gateway's verdict on every token of a principal
   is the one the full history calls for exactly when the last epoch written is the latest.
   */
  lemma VerdictExactly(events: seq<Event>, who: Principal)
    requires Storable(Log(events, who))
    ensures (forall sid, iat :: Check(WriteAll(events), Token(who, sid, iat)) == Demanded(events, Token(who, sid, iat)))
      <==> LastIsLatest(Log(events, who))
  {
    var log := Log(events, who);
    OneEpochExactly(log);
    if LastIsLatest(log) {
      forall sid, iat
        ensures Check(WriteAll(events), Token(who, sid, iat)) == Demanded(events, Token(who, sid, iat))
      {
        CheckMeans(events, Token(who, sid, iat));
      }
    } else {
      var i :| IsStale(i, Last(log)) != RevokedAfter(log, i);
      CheckMeans(events, Token(who, "", Some(i)));
      assert Check(WriteAll(events), Token(who, "", Some(i))) != Demanded(events, Token(who, "", Some(i)));
    }
  }

  /** So it is right on histories whose epochs are written in order. */
  lemma VerdictFollowsHistory(events: seq<Event>, t: Token)
    requires Ascending(Log(events, t.who)) && Positive(Log(events, t.who)) && Storable(Log(events, t.who))
    ensures Check(WriteAll(events), t) == Demanded(events, t)
  {
    var log := Log(events, t.who);
    assert log != [] ==> log[|log| - 1] > 0;
    VerdictExactly(events, t.who);
    assert t == Token(t.who, t.sid, t.iat);
  }

  /**
   One more epoch readmits a token that was refused as stale exactly when it is earlier than the one
   it overwrites, or zero.
   */
  lemma ReadmitsExactly(events: seq<Event>, who: Principal, at: int)
    requires Storable(Log(events, who)) && IsInt64(at)
    ensures (exists iat ::
        && Check(WriteAll(events), Token(who, "", Some(iat))) == TokenExpired
        && Check(WriteAll(events + [Revoke(who, at)]), Token(who, "", Some(iat))) == Accepted)
      <==> Last(Log(events, who)) != 0 && (at == 0 || at < Last(Log(events, who)))
  {
    var log, more := Log(events, who), events + [Revoke(who, at)];
    assert more[..|events|] == events;
    assert Log(more, who) == log + [at];
    forall iat
      ensures Check(WriteAll(events), Token(who, "", Some(iat))) == (if IsStale(iat, Last(log)) then TokenExpired else Accepted)
      ensures Check(WriteAll(more), Token(who, "", Some(iat))) == (if IsStale(iat, at) then TokenExpired else Accepted)
    {
      CheckMeans(events, Token(who, "", Some(iat)));
      CheckMeans(more, Token(who, "", Some(iat)));
    }
    assert Last(log) != 0 && (at == 0 || at < Last(log)) ==> IsStale(Last(log) - 1, Last(log)) && !IsStale(Last(log) - 1, at);
  }

  /** A late message with an earlier epoch readmits a token that had been refused. */
  lemma LateEpochReadmits(who: Principal)
    ensures var t := Token(who, "", Some(95));
      && Check(WriteAll([Revoke(who, 100)]), t) == TokenExpired
      && Check(WriteAll([Revoke(who, 100), Revoke(who, 90)]), t) == Accepted
      && Demanded([Revoke(who, 100), Revoke(who, 90)], t) == TokenExpired
  {
    var one, two := [Revoke(who, 100)], [Revoke(who, 100), Revoke(who, 90)];
    var t := Token(who, "", Some(95));
    assert one[..0] == [] && two[..1] == one;
    assert Log(one, who) == [100];
    assert Log(two, who) == [100, 90];
    CheckMeans(one, t);
    CheckMeans(two, t);
    assert Log(two, who)[0] == 100;
  }

  /** Revoking one principal changes no other principal's verdict. */
  lemma RevocationIsPrivate(r: Redis, who: Principal, at: int, t: Token)
    requires t.who != who
    ensures Check(Write(r, Revoke(who, at)), t) == Check(r, t)
  {
    if UserRevokedAtKey(t.who.kind, t.who.id) == UserRevokedAtKey(who.kind, who.id) {
      RevokedKeyInjective(t.who.kind, t.who.id, who.kind, who.id);
    }
    SessionKeysApart(t.sid, t.sid, who.kind, who.id);
  }
}
