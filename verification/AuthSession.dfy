/** The sign-in session: one record on disk and its secrets in the system
    keyring.  Each command is a sequence of single writes, and the process may
    stop between any two of them. */
module AuthSession {
  import opened Wrappers
  import Scopes

  const REFRESH_MARGIN_SECS: int := 300
  const DEFAULT_STELLAR_EXPIRES_SECS: nat := 86_400

  /** The session id of an API key kept in an older configuration file. */
  const LEGACY_ID: SessionId := SessionId("legacy-api-key")

  datatype AuthMethod = Github | Stellar | ApiKey

  datatype SessionId = SessionId(text: string)

  datatype SessionRecord = SessionRecord(
    sessionId: SessionId, authMethod: AuthMethod, identity: string, scopes: seq<string>,
    preferredExpires: Option<nat>, expiresAt: Option<int>, refreshable: bool, createdAt: int, updatedAt: int)

  datatype SecretKind = Access | Refresh

  datatype Account = Account(kind: SecretKind, sessionId: SessionId)

  /** What survives the process. */
  datatype Storage = Storage(record: Option<SessionRecord>, keyring: map<Account, string>)

  datatype Write =
    | StoreSecret(account: Account, secret: string)
    | SaveRecord(record: SessionRecord)
    | DeleteSecret(account: Account)
    | DeleteRecord

  datatype IssuedToken = IssuedToken(token: string, expiresAt: Option<int>)

  datatype LoadedSession = LoadedSession(record: SessionRecord, accessToken: string, refreshSecret: Option<string>)

  datatype Error = NoSession | SecretMissing | RefreshSecretMissing | IssueFailed(reason: string) | Expired

  function Apply(s: Storage, w: Write): Storage {
    match w
    case StoreSecret(account, secret) => s.(keyring := s.keyring[account := secret])
    case SaveRecord(record) => s.(record := Some(record))
    case DeleteSecret(account) => s.(keyring := s.keyring - {account})
    case DeleteRecord => s.(record := None)
  }

  function ApplyAll(s: Storage, writes: seq<Write>): Storage
    decreases |writes|
  {
    if writes == [] then s else ApplyAll(Apply(s, writes[0]), writes[1..])
  }

  // ---- what each command writes -------------------------------------------------

  datatype LoginInput = LoginInput(
    authMethod: AuthMethod, identity: string, secret: string, scopes: seq<string>, expiresIn: nat,
    sessionId: SessionId, now: int)

  function ClearWrites(id: SessionId): seq<Write> {
    [DeleteSecret(Account(Access, id)), DeleteSecret(Account(Refresh, id))]
  }

  function LoginRecord(input: LoginInput, expiresAt: Option<int>): SessionRecord {
    SessionRecord(input.sessionId, input.authMethod, input.identity, Scopes.Normalized(input.scopes), Some(input.expiresIn),
                  expiresAt, input.authMethod.Stellar?, input.now, input.now)
  }

  function LoginWrites(s: Storage, input: LoginInput, token: string, expiresAt: Option<int>): seq<Write> {
    [StoreSecret(Account(Access, input.sessionId), token)]
    + (if input.authMethod.Stellar? then [StoreSecret(Account(Refresh, input.sessionId), input.secret)] else [])
    + [SaveRecord(LoginRecord(input, expiresAt))]
    + (if s.record.Some? then ClearWrites(s.record.value.sessionId) else [])
  }

  function LogoutWrites(s: Storage): seq<Write> {
    if s.record.None? then [] else ClearWrites(s.record.value.sessionId) + [DeleteRecord]
  }

  /** A new access token is stored before the record that goes with it. */
  function RenewWrites(record: SessionRecord, token: string): seq<Write> {
    [StoreSecret(Account(Access, record.sessionId), token), SaveRecord(record)]
  }

  /** The session that a login leaves: the issued token and the signing secret
      for Stellar, and otherwise the given secret itself. */
  ghost predicate SignedIn(st: Storage, input: LoginInput, issued: Result<IssuedToken, string>) {
    var access, refresh := Account(Access, input.sessionId), Account(Refresh, input.sessionId);
    && st.record.Some? && access in st.keyring
    && var r := st.record.value;
    && r.sessionId == input.sessionId && r.authMethod == input.authMethod && r.identity == input.identity
    && r.scopes == Scopes.Normalized(input.scopes) && r.preferredExpires == Some(input.expiresIn)
    && r.createdAt == input.now && r.updatedAt == input.now
    && if input.authMethod == Stellar then
         && issued.Ok? && st.keyring[access] == issued.value.token
         && refresh in st.keyring && st.keyring[refresh] == input.secret
         && r.expiresAt == issued.value.expiresAt && r.refreshable
       else
         && st.keyring[access] == input.secret && refresh !in st.keyring
         && r.expiresAt == Some(input.now + input.expiresIn) && !r.refreshable
  }

  /** What `auth token` changes in a record. */
  ghost predicate TokenFields(r: SessionRecord, saved: SessionRecord, scopes: seq<string>, expires: Option<nat>,
                              issued: Result<IssuedToken, string>, now: int) {
    && saved.sessionId == r.sessionId && saved.authMethod == r.authMethod && saved.identity == r.identity
    && saved.refreshable == r.refreshable && saved.createdAt == r.createdAt && saved.updatedAt == now
    && (scopes == [] ==> saved.scopes == r.scopes)
    && (scopes != [] ==> saved.scopes == Scopes.Normalized(scopes))
    && (expires.Some? ==> saved.preferredExpires == expires)
    && (expires.None? && r.preferredExpires.Some? ==> saved.preferredExpires == r.preferredExpires)
    && (expires.None? && r.preferredExpires.None? ==>
          saved.preferredExpires == if r.authMethod == Stellar then Some(86_400) else None)
    && (r.authMethod == Stellar ==> issued.Ok? && saved.expiresAt == issued.value.expiresAt)
    && (r.authMethod != Stellar ==>
          saved.expiresAt == if saved.preferredExpires.Some? then Some(now + saved.preferredExpires.value) else r.expiresAt)
  }

  // ---- the commands ---------------------------------------------------------------

  class AuthStore {
    var record: Option<SessionRecord>
    var keyring: map<Account, string>
    /** Every write so far, in order. */
    ghost var log: seq<Write>

    constructor ()
      ensures Stored() == Storage(None, map[]) && log == []
    {
      record, keyring, log := None, map[], [];
    }

    function Stored(): Storage
      reads this
    {
      Storage(record, keyring)
    }

    method StoreSecret(account: Account, secret: string)
      modifies this
      ensures Stored() == Apply(old(Stored()), Write.StoreSecret(account, secret))
      ensures log == old(log) + [Write.StoreSecret(account, secret)]
    {
      keyring := keyring[account := secret];
      log := log + [Write.StoreSecret(account, secret)];
    }

    method SaveSession(r: SessionRecord)
      modifies this
      ensures Stored() == Apply(old(Stored()), SaveRecord(r))
      ensures log == old(log) + [SaveRecord(r)]
    {
      record := Some(r);
      log := log + [SaveRecord(r)];
    }

    method DeleteCredential(account: Account)
      modifies this
      ensures Stored() == Apply(old(Stored()), DeleteSecret(account))
      ensures log == old(log) + [DeleteSecret(account)]
    {
      keyring := keyring - {account};
      log := log + [DeleteSecret(account)];
    }

    method ClearSessionById(id: SessionId)
      modifies this
      ensures Stored() == ApplyAll(old(Stored()), ClearWrites(id))
      ensures log == old(log) + ClearWrites(id)
    {
      DeleteCredential(Account(Access, id));
      DeleteCredential(Account(Refresh, id));
      Two(old(Stored()), DeleteSecret(Account(Access, id)), DeleteSecret(Account(Refresh, id)));
    }

    /** The writes of a login: the secrets, the record that names them, and then
        the deletion of what the earlier session had. */
    method StoreLogin(input: LoginInput, scopes: seq<string>, token: string, expiresAt: Option<int>)
      requires scopes == Scopes.Normalized(input.scopes)
      modifies this
      ensures Stored() == ApplyAll(old(Stored()), LoginWrites(old(Stored()), input, token, expiresAt))
      ensures log == old(log) + LoginWrites(old(Stored()), input, token, expiresAt)
    {
      var previous := record;
      StoreSecret(Account(Access, input.sessionId), token);
      if input.authMethod.Stellar? {
        StoreSecret(Account(Refresh, input.sessionId), input.secret);
      }
      SaveSession(SessionRecord(input.sessionId, input.authMethod, input.identity, scopes, Some(input.expiresIn),
                                expiresAt, input.authMethod.Stellar?, input.now, input.now));
      if previous.Some? {
        ClearSessionById(previous.value.sessionId);
      }
      LoginApplied(old(Stored()), input, token, expiresAt);
    }

    /** The writes of a renewal. */
    method StoreRenewed(renewed: SessionRecord, token: string)
      modifies this
      ensures record == Some(renewed) && keyring == old(keyring)[Account(Access, renewed.sessionId) := token]
      ensures Stored() == ApplyAll(old(Stored()), RenewWrites(renewed, token))
      ensures log == old(log) + RenewWrites(renewed, token)
    {
      StoreSecret(Account(Access, renewed.sessionId), token);
      SaveSession(renewed);
      Two(old(Stored()), Write.StoreSecret(Account(Access, renewed.sessionId), token), SaveRecord(renewed));
    }

    method Login(input: LoginInput, issued: Result<IssuedToken, string>) returns (result: Result<(), Error>)
      modifies this
      ensures result.Err? <==> input.authMethod.Stellar? && issued.Err?
      ensures result.Err? ==> Stored() == old(Stored()) && log == old(log)
      ensures result.Ok? ==>
        var writes := LoginWrites(old(Stored()), input, LoginToken(input, issued), LoginExpiry(input, issued));
        Stored() == ApplyAll(old(Stored()), writes) && log == old(log) + writes
      ensures Unused(old(Stored()), input.sessionId) && input.sessionId != LEGACY_ID ==> Performed(old(Stored()), Stored())
      ensures result.Ok? && Unused(old(Stored()), input.sessionId) ==> SignedIn(Stored(), input, issued)
    {
      Nothing(Stored());
      var scopes := Scopes.NormalizeScopes(input.scopes);
      var token, expiresAt := input.secret, Some(input.now + input.expiresIn);
      if input.authMethod.Stellar? {
        if issued.Err? {
          return Err(IssueFailed(issued.error));
        }
        token, expiresAt := issued.value.token, issued.value.expiresAt;
      }
      ghost var start := Stored();
      StoreLogin(input, scopes, token, expiresAt);
      LoginPerformed(start, input, token, expiresAt);
      if Unused(start, input.sessionId) { LoginSignsIn(start, input, issued); }
      result := Ok(());
    }

    method Logout()
      modifies this
      ensures Stored() == ApplyAll(old(Stored()), LogoutWrites(old(Stored())))
      ensures log == old(log) + LogoutWrites(old(Stored()))
      ensures Performed(old(Stored()), Stored())
    {
      Did(Stored(), LogoutCommand);
      if record.None? {
        return;
      }
      var id := record.value.sessionId;
      ClearSessionById(id);
      record := None;
      log := log + [DeleteRecord];
      ApplySplit(old(Stored()), ClearWrites(id), [DeleteRecord]);
      assert [DeleteRecord][1..] == [];
    }

    /** The session on disk with its secrets; an API key of an older configuration
        file serves as one when there is none. */
    method LoadActiveSession(legacy: Option<string>, now: int) returns (loaded: Result<Option<LoadedSession>, Error>)
      ensures record.Some? ==>
        var r := record.value;
        var access, refresh := Account(Access, r.sessionId), Account(Refresh, r.sessionId);
        if access !in keyring then loaded == Err(SecretMissing)
        else
          && loaded.Ok? && loaded.value.Some? && loaded.value.value.record == r
          && loaded.value.value.accessToken == keyring[access]
          && loaded.value.value.refreshSecret
               == if r.refreshable && refresh in keyring then Some(keyring[refresh]) else None
      ensures record.None? ==>
        loaded == Ok(if legacy.Some? then Some(LoadedSession(LegacyRecord(now), legacy.value, None)) else None)
    {
      if record.Some? {
        var r := record.value;
        if Account(Access, r.sessionId) !in keyring {
          return Err(SecretMissing);
        }
        var refreshSecret := None;
        if r.refreshable && Account(Refresh, r.sessionId) in keyring {
          refreshSecret := Some(keyring[Account(Refresh, r.sessionId)]);
        }
        return Ok(Some(LoadedSession(r, keyring[Account(Access, r.sessionId)], refreshSecret)));
      }
      if legacy.Some? {
        return Ok(Some(LoadedSession(LegacyRecord(now), legacy.value, None)));
      }
      loaded := Ok(None);
    }

    /** Issues a new token for the session: `auth token`.  Without a session an
        API key of an older configuration file, if there is one, serves as one. */
    method Token(scopes: seq<string>, expires: Option<nat>, legacy: Option<string>,
                 issued: Result<IssuedToken, string>, now: int) returns (result: Result<string, Error>)
      modifies this
      ensures old(record).Some? ==>
        (result.Ok? <==>
          && Account(Access, old(record).value.sessionId) in old(keyring)
          && (old(record).value.authMethod.Stellar? ==> CanRenew(old(Stored())) && issued.Ok?))
      ensures old(record).None? ==> (result.Ok? <==> legacy.Some?)
      ensures result.Ok? && old(record).Some? && old(record).value.authMethod.Stellar? ==> result.value == issued.value.token
      ensures result.Err? ==> Stored() == old(Stored()) && log == old(log)
      ensures result.Ok? ==>
        var session := if old(record).Some? then old(record).value else LegacyRecord(now);
        var renewed := TokenRecord(session, scopes, expires, issued, now);
        var writes := if renewed.authMethod.Stellar? then RenewWrites(renewed, result.value) else [SaveRecord(renewed)];
        Stored() == ApplyAll(old(Stored()), writes) && log == old(log) + writes
      ensures result.Ok? && old(record).Some? ==>
        && Account(Access, old(record).value.sessionId) in keyring
        && result.value == keyring[Account(Access, old(record).value.sessionId)]
      ensures result.Ok? && old(record).None? ==> result.value == legacy.value
      ensures result.Ok? ==>
        && record.Some?
        && TokenFields(if old(record).Some? then old(record).value
                       else SessionRecord(LEGACY_ID, ApiKey, "legacy user config", ["read"], None, None, false, now, now),
                       record.value, scopes, expires, issued, now)
      ensures Performed(old(Stored()), Stored())
    {
      Nothing(Stored());
      var loaded := LoadActiveSession(legacy, now);
      if loaded.Err? {
        return Err(loaded.error);
      }
      if loaded.value.None? {
        return Err(NoSession);
      }
      var session := loaded.value.value;
      var requested := session.record.scopes;
      if scopes != [] {
        requested := Scopes.NormalizeScopes(scopes);
      }
      var renewed := TokenRecord(session.record, scopes, expires, issued, now);
      assert renewed.scopes == requested;
      if session.record.authMethod.Stellar? ==> issued.Ok? {
        TokenRecordFields(session.record, scopes, expires, issued, now);
      }
      if session.record.authMethod.Stellar? {
        if session.refreshSecret.None? {
          return Err(RefreshSecretMissing);
        }
        if issued.Err? {
          return Err(IssueFailed(issued.error));
        }
        StoreRenewed(renewed, issued.value.token);
        Did(old(Stored()), RenewCommand(renewed, issued.value.token));
        result := Ok(issued.value.token);
      } else {
        SaveSession(renewed);
        One(old(Stored()), SaveRecord(renewed));
        Did(old(Stored()), if old(record).Some? then ResaveCommand(renewed) else LegacyCommand(renewed));
        result := Ok(session.accessToken);
      }
    }

    /** The token for a registry request, renewed when it is about to expire;
        `now` and `later` are the two readings of the clock. */
    method AccessTokenForRequests(legacy: Option<string>, issued: Result<IssuedToken, string>, now: int, later: int)
        returns (result: Result<Option<string>, Error>)
      modifies this
      ensures old(record).Some? ==>
        var r := old(record).value;
        (result.Ok? <==>
          && Account(Access, r.sessionId) in old(keyring)
          && (RefreshDue(r, now) && r.authMethod.Stellar? ==> CanRenew(old(Stored())) && issued.Ok?)
          && (RefreshDue(r, now) && !r.authMethod.Stellar? ==> later < r.expiresAt.value))
      ensures result.Ok? && old(record).Some? && RefreshDue(old(record).value, now) && old(record).value.authMethod.Stellar? ==>
        result.value == Some(issued.value.token)
      ensures result.Err? ==> Stored() == old(Stored()) && log == old(log)
      ensures old(record).None? ==> result == Ok(legacy) && Stored() == old(Stored()) && log == old(log)
      ensures result.Ok? && old(record).Some? ==>
        && result.value.Some? && Account(Access, old(record).value.sessionId) in old(keyring)
        && var r := old(record).value;
           var writes := if RefreshDue(r, now) && r.authMethod.Stellar? && issued.Ok?
                         then RenewWrites(RefreshedRecord(r, issued.value, later), result.value.value) else [];
           Stored() == ApplyAll(old(Stored()), writes) && log == old(log) + writes
      ensures result.Ok? && old(record).Some? ==>
        Account(Access, old(record).value.sessionId) in keyring
        && result.value == Some(keyring[Account(Access, old(record).value.sessionId)])
      ensures result.Ok? && old(record).Some? && old(record).value.expiresAt.Some? && !old(record).value.authMethod.Stellar? ==>
        now < old(record).value.expiresAt.value || later < old(record).value.expiresAt.value
      ensures result.Ok? && old(record).Some? && old(record).value.expiresAt.Some? && old(record).value.authMethod.Stellar? ==>
        now < old(record).value.expiresAt.value || (issued.Ok? && result.value == Some(issued.value.token))
      ensures Performed(old(Stored()), Stored())
      ensures result.Ok? && old(record).Some? ==>
        var r := old(record).value;
        if r.authMethod == Stellar && r.expiresAt.Some? && r.expiresAt.value - now <= 300 then
          issued.Ok? && record == Some(r.(expiresAt := issued.value.expiresAt, updatedAt := later))
        else Stored() == old(Stored())
    {
      Nothing(Stored());
      var loaded := LoadActiveSession(legacy, now);
      if loaded.Err? {
        return Err(loaded.error);
      }
      if loaded.value.None? {
        return Ok(legacy);
      }
      var session := loaded.value.value;
      if RefreshDue(session.record, now) {
        if session.record.authMethod.Stellar? {
          if session.refreshSecret.None? {
            return Err(RefreshSecretMissing);
          }
          if issued.Err? {
            return Err(IssueFailed(issued.error));
          }
          var renewed := RefreshedRecord(session.record, issued.value, later);
          StoreRenewed(renewed, issued.value.token);
          Did(old(Stored()), RenewCommand(renewed, issued.value.token));
          return Ok(Some(issued.value.token));
        } else if later >= session.record.expiresAt.value {
          return Err(Expired);
        }
      }
      result := Ok(Some(session.accessToken));
    }
  }

  /** What an API key of an older configuration file counts as. */
  function LegacyRecord(now: int): SessionRecord {
    SessionRecord(LEGACY_ID, ApiKey, "legacy user config", [Scopes.DEFAULT_SCOPE], None, None, false, now, now)
  }

  /** The session's secret for issuing new tokens is there. */
  predicate CanRenew(s: Storage) {
    s.record.Some? && s.record.value.refreshable && Account(Refresh, s.record.value.sessionId) in s.keyring
  }

  function LoginToken(input: LoginInput, issued: Result<IssuedToken, string>): string {
    if input.authMethod.Stellar? && issued.Ok? then issued.value.token else input.secret
  }

  function LoginExpiry(input: LoginInput, issued: Result<IssuedToken, string>): Option<int> {
    if input.authMethod.Stellar? && issued.Ok? then issued.value.expiresAt else Some(input.now + input.expiresIn)
  }

  predicate RefreshDue(r: SessionRecord, now: int) {
    r.expiresAt.Some? && r.expiresAt.value - now <= REFRESH_MARGIN_SECS
  }

  function RefreshedRecord(r: SessionRecord, issued: IssuedToken, now: int): (renewed: SessionRecord)
    ensures renewed.sessionId == r.sessionId && renewed.refreshable == r.refreshable
  {
    r.(expiresAt := issued.expiresAt, updatedAt := now)
  }

  /** The record after `auth token`; without requested scopes or expiry the old ones stay. */
  function TokenRecord(r: SessionRecord, scopes: seq<string>, expires: Option<nat>,
                       issued: Result<IssuedToken, string>, now: int): (renewed: SessionRecord)
    ensures renewed.sessionId == r.sessionId && renewed.refreshable == r.refreshable
  {
    var wanted := if expires.Some? then expires else r.preferredExpires;
    var base := r.(scopes := if scopes == [] then r.scopes else Scopes.Normalized(scopes), updatedAt := now);
    if r.authMethod.Stellar? then
      base.(preferredExpires := Some(wanted.GetOr(DEFAULT_STELLAR_EXPIRES_SECS)),
            expiresAt := if issued.Ok? then issued.value.expiresAt else r.expiresAt)
    else if wanted.Some? then
      base.(preferredExpires := wanted, expiresAt := Some(now + wanted.value))
    else base
  }

  lemma {:induction false} TokenRecordFields(r: SessionRecord, scopes: seq<string>, expires: Option<nat>,
                                             issued: Result<IssuedToken, string>, now: int)
    requires r.authMethod.Stellar? ==> issued.Ok?
    ensures TokenFields(r, TokenRecord(r, scopes, expires, issued, now), scopes, expires, issued, now)
  {
  }

  lemma {:induction false} Two(s: Storage, a: Write, b: Write)
    ensures ApplyAll(s, [a, b]) == Apply(Apply(s, a), b)
  {
    assert [a, b][1..] == [b] && [b][1..] == [];
    assert ApplyAll(Apply(s, a), [b]) == ApplyAll(Apply(Apply(s, a), b), []);
  }

  lemma {:induction false} ApplySplit(s: Storage, a: seq<Write>, b: seq<Write>)
    ensures ApplyAll(s, a + b) == ApplyAll(ApplyAll(s, a), b)
    decreases |a|
  {
    if a == [] {
      assert a + b == b;
    } else {
      assert (a + b)[1..] == a[1..] + b;
      ApplySplit(Apply(s, a[0]), a[1..], b);
    }
  }

  lemma {:induction false} One(s: Storage, w: Write)
    ensures ApplyAll(s, [w]) == Apply(s, w)
  {
    assert [w][1..] == [];
  }

  lemma {:induction false} LoginApplied(s: Storage, input: LoginInput, token: string, expiresAt: Option<int>)
    ensures var first := Apply(s, StoreSecret(Account(Access, input.sessionId), token));
      var second := if input.authMethod.Stellar?
                    then Apply(first, StoreSecret(Account(Refresh, input.sessionId), input.secret)) else first;
      var third := Apply(second, SaveRecord(LoginRecord(input, expiresAt)));
      ApplyAll(s, LoginWrites(s, input, token, expiresAt))
        == if s.record.Some? then ApplyAll(third, ClearWrites(s.record.value.sessionId)) else third
  {
    var a := [StoreSecret(Account(Access, input.sessionId), token)];
    var b := if input.authMethod.Stellar? then [StoreSecret(Account(Refresh, input.sessionId), input.secret)] else [];
    var c := [SaveRecord(LoginRecord(input, expiresAt))];
    var d := if s.record.Some? then ClearWrites(s.record.value.sessionId) else [];
    ApplySplit(s, a + b + c, d);
    ApplySplit(s, a + b, c);
    ApplySplit(s, a, b);
    One(s, a[0]);
    if b != [] { One(ApplyAll(s, a), b[0]); }
    One(ApplyAll(s, a + b), c[0]);
  }

  // ---- safety at every point ---------------------------------------------------------

  /** A record on disk has its access secret in the keyring, and its refresh
      secret if it is refreshable. */
  ghost predicate Sound(s: Storage) {
    s.record.Some? ==>
      && Account(Access, s.record.value.sessionId) in s.keyring
      && (s.record.value.refreshable ==> Account(Refresh, s.record.value.sessionId) in s.keyring)
  }

  /** No secrets are left of any session but the current one. */
  ghost predicate Tidy(s: Storage) {
    forall a :: a in s.keyring ==> s.record.Some? && a.sessionId == s.record.value.sessionId
  }

  /** A session id that nothing in storage uses yet. */
  ghost predicate Unused(s: Storage, id: SessionId) {
    && (s.record.Some? ==> s.record.value.sessionId != id)
    && forall a :: a in s.keyring ==> a.sessionId != id
  }

  lemma {:induction false} OneMore(s: Storage, writes: seq<Write>, k: nat)
    requires k < |writes|
    ensures ApplyAll(s, writes[..k + 1]) == Apply(ApplyAll(s, writes[..k]), writes[k])
  {
    assert writes[..k + 1] == writes[..k] + [writes[k]];
    ApplySplit(s, writes[..k], [writes[k]]);
    One(ApplyAll(s, writes[..k]), writes[k]);
  }

  /** Where the record is written among the writes of a login. */
  function SaveAt(input: LoginInput): nat {
    if input.authMethod.Stellar? then 2 else 1
  }

  /** What holds after `k` writes of a login: before the record is saved the old
      session is whole, and afterwards the new one is. */
  ghost predicate LoginStage(s: Storage, input: LoginInput, expiresAt: Option<int>, st: Storage, k: nat) {
    && (k >= 1 ==> Account(Access, input.sessionId) in st.keyring)
    && (k >= 2 && input.authMethod.Stellar? ==> Account(Refresh, input.sessionId) in st.keyring)
    && (k <= SaveAt(input) ==> st.record == s.record && forall a :: a in s.keyring ==> a in st.keyring)
    && (k > SaveAt(input) ==> st.record == Some(LoginRecord(input, expiresAt)))
  }

  lemma {:induction false} LoginStages(s: Storage, input: LoginInput, token: string, expiresAt: Option<int>, k: nat)
    requires Unused(s, input.sessionId) && k <= |LoginWrites(s, input, token, expiresAt)|
    ensures LoginStage(s, input, expiresAt, ApplyAll(s, LoginWrites(s, input, token, expiresAt)[..k]), k)
  {
    var writes := LoginWrites(s, input, token, expiresAt);
    if k > 0 {
      LoginStages(s, input, token, expiresAt, k - 1);
      OneMore(s, writes, k - 1);
    }
  }

  /** Wherever a login stops, a sound storage stays sound. */
  lemma {:induction false} LoginSafe(s: Storage, input: LoginInput, token: string, expiresAt: Option<int>, k: nat)
    requires Sound(s) && Unused(s, input.sessionId) && k <= |LoginWrites(s, input, token, expiresAt)|
    ensures Sound(ApplyAll(s, LoginWrites(s, input, token, expiresAt)[..k]))
  {
    LoginStages(s, input, token, expiresAt, k);
  }

  /** A completed login leaves the new session whole and nothing of the earlier
      one, whatever state it started from. */
  lemma {:induction false} LoginCompletes(s: Storage, input: LoginInput, token: string, expiresAt: Option<int>)
    requires Unused(s, input.sessionId)
    ensures var after := ApplyAll(s, LoginWrites(s, input, token, expiresAt));
      && Sound(after) && after.record == Some(LoginRecord(input, expiresAt))
      && after.keyring[Account(Access, input.sessionId)] == token
      && (if input.authMethod.Stellar?
          then after.keyring[Account(Refresh, input.sessionId)] == input.secret
          else Account(Refresh, input.sessionId) !in after.keyring)
      && (s.record.Some? ==> forall a :: a in after.keyring ==> a.sessionId != s.record.value.sessionId)
      && (Tidy(s) ==> Tidy(after))
  {
    LoginApplied(s, input, token, expiresAt);
    if s.record.Some? {
      var id := s.record.value.sessionId;
      var before := if input.authMethod.Stellar?
        then Apply(Apply(s, StoreSecret(Account(Access, input.sessionId), token)),
                   StoreSecret(Account(Refresh, input.sessionId), input.secret))
        else Apply(s, StoreSecret(Account(Access, input.sessionId), token));
      Cleared(Apply(before, SaveRecord(LoginRecord(input, expiresAt))), id);
    }
  }

  lemma {:induction false} LoginSignsIn(s: Storage, input: LoginInput, issued: Result<IssuedToken, string>)
    requires Unused(s, input.sessionId) && (input.authMethod.Stellar? ==> issued.Ok?)
    ensures SignedIn(ApplyAll(s, LoginWrites(s, input, LoginToken(input, issued), LoginExpiry(input, issued))), input, issued)
  {
    LoginCompletes(s, input, LoginToken(input, issued), LoginExpiry(input, issued));
  }

  /** The two commands one after the other: a request made while the token of a
      login is not about to expire is sent with the issued token, for Stellar,
      and with the given secret otherwise. */
  method RequestAfterLogin(store: AuthStore, input: LoginInput, issued: Result<IssuedToken, string>,
                           reissued: Result<IssuedToken, string>, legacy: Option<string>, now: int, later: int)
      returns (token: Result<Option<string>, Error>)
    requires Unused(store.Stored(), input.sessionId)
    modifies store
    ensures input.authMethod == Stellar && issued.Ok? && issued.value.expiresAt.GetOr(now + 301) - now > 300 ==>
      token == Ok(Some(issued.value.token))
    ensures input.authMethod != Stellar && now < input.now + input.expiresIn - 300 ==> token == Ok(Some(input.secret))
  {
    var done := store.Login(input, issued);
    token := store.AccessTokenForRequests(legacy, reissued, now, later);
  }

  lemma {:induction false} Cleared(s: Storage, id: SessionId)
    ensures ApplyAll(s, ClearWrites(id))
         == s.(keyring := s.keyring - {Account(Access, id), Account(Refresh, id)})
    ensures forall a :: a in ApplyAll(s, ClearWrites(id)).keyring ==> a.sessionId != id
  {
    Two(s, DeleteSecret(Account(Access, id)), DeleteSecret(Account(Refresh, id)));
    assert s.keyring - {Account(Access, id)} - {Account(Refresh, id)}
        == s.keyring - {Account(Access, id), Account(Refresh, id)};
    forall a | a in ApplyAll(s, ClearWrites(id)).keyring ensures a.sessionId != id {
      assert a !in {Account(Access, id), Account(Refresh, id)};
      match a.kind
      case Access =>
      case Refresh =>
    }
  }

  /** Wherever a renewal stops, a sound storage stays sound, and a changed record
      is never on disk without the token that goes with it. */
  lemma {:induction false} RenewSafe(s: Storage, record: SessionRecord, token: string, k: nat)
    requires Sound(s) && s.record.Some? && k <= 2
    requires record.sessionId == s.record.value.sessionId && record.refreshable == s.record.value.refreshable
    ensures var after := ApplyAll(s, RenewWrites(record, token)[..k]);
      && Sound(after)
      && (k == 2 ==> after.record == Some(record) && (Tidy(s) ==> Tidy(after)))
      && (after.record != s.record ==>
            Account(Access, record.sessionId) in after.keyring && after.keyring[Account(Access, record.sessionId)] == token)
  {
    var writes := RenewWrites(record, token);
    assert writes[..0] == [];
    if k >= 1 { OneMore(s, writes, 0); }
    if k >= 2 { OneMore(s, writes, 1); }
  }

  /** A completed logout leaves neither the record nor its secrets. */
  lemma {:induction false} LogoutCompletes(s: Storage)
    ensures var after := ApplyAll(s, LogoutWrites(s));
      && after.record.None?
      && (s.record.Some? ==> forall a :: a in after.keyring ==> a.sessionId != s.record.value.sessionId)
      && (Tidy(s) ==> after.keyring == map[])
  {
    if s.record.Some? {
      var id := s.record.value.sessionId;
      ApplySplit(s, ClearWrites(id), [DeleteRecord]);
      One(ApplyAll(s, ClearWrites(id)), DeleteRecord);
      Cleared(s, id);
    }
  }

  /** A logout deletes the secrets before the record, so it is the one command
      that is unsafe to interrupt: exactly between its first and last write. */
  lemma {:induction false} LogoutInterrupted(s: Storage, k: nat)
    requires Sound(s) && k <= |LogoutWrites(s)|
    ensures Sound(ApplyAll(s, LogoutWrites(s)[..k])) <==> k == 0 || k == |LogoutWrites(s)|
  {
    var writes := LogoutWrites(s);
    assert writes[..0] == [];
    if s.record.Some? {
      OneMore(s, writes, 0);
      OneMore(s, writes, 1);
      OneMore(s, writes, 2);
    }
  }

  // ---- whole runs --------------------------------------------------------------------

  /** A command with what it was given, or one that changed nothing. */
  datatype Command =
    | LoginCommand(input: LoginInput, token: string, loginExpiry: Option<int>)
    | RenewCommand(renewed: SessionRecord, newToken: string)
    | ResaveCommand(resaved: SessionRecord)
    | LegacyCommand(legacy: SessionRecord)
    | LogoutCommand
    | NoChange

  /** A command of which the first `done` writes took place. */
  datatype Event = Event(command: Command, done: nat)

  function Writes(s: Storage, c: Command): seq<Write> {
    match c
    case LoginCommand(input, token, expiry) => LoginWrites(s, input, token, expiry)
    case RenewCommand(renewed, token) => RenewWrites(renewed, token)
    case ResaveCommand(resaved) => [SaveRecord(resaved)]
    case LegacyCommand(legacy) => [SaveRecord(legacy)]
    case LogoutCommand => LogoutWrites(s)
    case NoChange => []
  }

  /** A record for the session there is, whose access secret could be read. */
  ghost predicate ForSession(s: Storage, r: SessionRecord) {
    && s.record.Some? && r.sessionId == s.record.value.sessionId && r.refreshable == s.record.value.refreshable
    && Account(Access, r.sessionId) in s.keyring
  }

  /** A login uses a new id; `auth token` and renewals write for the session there
      is or, if there is none, for an older API key. */
  ghost predicate Allowed(s: Storage, e: Event) {
    && e.done <= |Writes(s, e.command)|
    && match e.command
       case LoginCommand(input, _, _) => Unused(s, input.sessionId) && input.sessionId != LEGACY_ID
       case RenewCommand(r, _) => ForSession(s, r) && CanRenew(s)
       case ResaveCommand(r) => ForSession(s, r)
       case LegacyCommand(r) => s.record.None? && r.sessionId == LEGACY_ID && !r.refreshable
       case _ => true
  }

  function After(s: Storage, e: Event): Storage
    requires e.done <= |Writes(s, e.command)|
  {
    ApplyAll(s, Writes(s, e.command)[..e.done])
  }

  ghost function Reach(events: seq<Event>): Option<Storage> {
    if events == [] then Some(Storage(None, map[]))
    else match Reach(events[..|events| - 1])
      case None => None
      case Some(s) => if Allowed(s, events[|events| - 1]) then Some(After(s, events[|events| - 1])) else None
  }

  ghost predicate Whole(s: Storage, e: Event) {
    e.done == |Writes(s, e.command)|
  }

  /** What a command leaves when it is not cut short is one event of a run. */
  ghost predicate Performed(before: Storage, after: Storage) {
    exists e :: Allowed(before, e) && Whole(before, e) && after == After(before, e)
  }

  lemma {:induction false} Did(before: Storage, c: Command)
    requires Allowed(before, Event(c, |Writes(before, c)|))
    ensures Performed(before, ApplyAll(before, Writes(before, c)))
  {
    var e := Event(c, |Writes(before, c)|);
    assert Writes(before, c)[..e.done] == Writes(before, c);
    assert Whole(before, e);
  }

  lemma {:induction false} LoginPerformed(s: Storage, input: LoginInput, token: string, expiresAt: Option<int>)
    ensures Unused(s, input.sessionId) && input.sessionId != LEGACY_ID ==>
      Performed(s, ApplyAll(s, LoginWrites(s, input, token, expiresAt)))
  {
    if Unused(s, input.sessionId) && input.sessionId != LEGACY_ID {
      Did(s, LoginCommand(input, token, expiresAt));
    }
  }

  lemma {:induction false} Nothing(s: Storage)
    ensures Performed(s, s)
  {
    Did(s, NoChange);
  }

  // ---- when a run ends sound -----------------------------------------------------------

  /** An event that leaves a record without its secrets: a logout cut between its
      first and last write, or a record saved for an older API key. */
  ghost predicate Breaks(s: Storage, e: Event) {
    || (e.command.LogoutCommand? && 0 < e.done < |LogoutWrites(s)|)
    || (e.command.LegacyCommand? && e.done == 1)
  }

  /** An event after which all is well whatever was before: a login that got as
      far as its record, or a completed logout. */
  ghost predicate Repairs(s: Storage, e: Event) {
    || (e.command.LoginCommand? && e.done > SaveAt(e.command.input))
    || (e.command.LogoutCommand? && e.done == |LogoutWrites(s)|)
  }

  /** No secret is kept under the id of older API keys. */
  ghost predicate NoLegacySecret(s: Storage) {
    forall a :: a in s.keyring ==> a.sessionId != LEGACY_ID
  }

  lemma {:induction false} StoresNoLegacy(s: Storage, writes: seq<Write>)
    requires NoLegacySecret(s)
    requires forall i :: 0 <= i < |writes| && writes[i].StoreSecret? ==> writes[i].account.sessionId != LEGACY_ID
    ensures NoLegacySecret(ApplyAll(s, writes))
    decreases |writes|
  {
    if writes != [] {
      assert forall i :: 0 <= i < |writes[1..]| ==> writes[1..][i] == writes[i + 1];
      StoresNoLegacy(Apply(s, writes[0]), writes[1..]);
    }
  }

  lemma {:induction false} CommandStores(s: Storage, e: Event)
    requires NoLegacySecret(s) && Allowed(s, e)
    ensures forall i :: 0 <= i < e.done && Writes(s, e.command)[i].StoreSecret? ==>
              Writes(s, e.command)[i].account.sessionId != LEGACY_ID
  {
  }

  lemma {:induction false} NeverLegacy(events: seq<Event>)
    requires Reach(events).Some?
    ensures NoLegacySecret(Reach(events).value)
  {
    if events != [] {
      var front, e := events[..|events| - 1], events[|events| - 1];
      NeverLegacy(front);
      var s := Reach(front).value;
      CommandStores(s, e);
      StoresNoLegacy(s, Writes(s, e.command)[..e.done]);
    }
  }

  lemma {:induction false} LoginSound(s: Storage, input: LoginInput, token: string, expiresAt: Option<int>, k: nat)
    requires Unused(s, input.sessionId) && k <= |LoginWrites(s, input, token, expiresAt)|
    ensures Sound(ApplyAll(s, LoginWrites(s, input, token, expiresAt)[..k])) <==> k > SaveAt(input) || Sound(s)
  {
    LoginStages(s, input, token, expiresAt, k);
    LoginKeyrings(s, input, token, expiresAt, k);
  }

  lemma {:induction false} RenewSound(s: Storage, record: SessionRecord, token: string, k: nat)
    requires ForSession(s, record) && k <= 2
    ensures Sound(ApplyAll(s, RenewWrites(record, token)[..k])) <==> Sound(s)
  {
    var writes := RenewWrites(record, token);
    assert writes[..0] == [];
    if k >= 1 { OneMore(s, writes, 0); }
    if k >= 2 { OneMore(s, writes, 1); }
  }

  lemma {:induction false} LogoutSound(s: Storage, k: nat)
    requires k <= |LogoutWrites(s)|
    ensures Sound(ApplyAll(s, LogoutWrites(s)[..k])) <==> k == |LogoutWrites(s)| || (k == 0 && Sound(s))
  {
    var writes := LogoutWrites(s);
    assert writes[..0] == [];
    if s.record.Some? {
      OneMore(s, writes, 0);
      OneMore(s, writes, 1);
      OneMore(s, writes, 2);
    }
  }

  lemma {:induction false} OneSave(s: Storage, r: SessionRecord, k: nat)
    requires k <= 1
    ensures ApplyAll(s, [SaveRecord(r)][..k]) == if k == 0 then s else s.(record := Some(r))
  {
    assert [SaveRecord(r)][..0] == [];
    if k == 1 { OneMore(s, [SaveRecord(r)], 0); }
  }

  /** What one event does to soundness, from any state. */
  lemma {:induction false} SoundStep(s: Storage, e: Event)
    requires Allowed(s, e) && NoLegacySecret(s)
    ensures Sound(After(s, e)) <==> Repairs(s, e) || (Sound(s) && !Breaks(s, e))
  {
    match e.command
    case LoginCommand(input, token, expiry) => LoginSound(s, input, token, expiry, e.done);
    case RenewCommand(r, token) => RenewSound(s, r, token, e.done);
    case ResaveCommand(r) => OneSave(s, r, e.done);
    case LegacyCommand(r) => OneSave(s, r, e.done);
    case LogoutCommand => LogoutSound(s, e.done);
    case NoChange =>
  }

  ghost predicate BreaksAt(events: seq<Event>, i: nat)
    requires i < |events|
  {
    Reach(events[..i]).Some? && Breaks(Reach(events[..i]).value, events[i])
  }

  ghost predicate RepairsAt(events: seq<Event>, i: nat)
    requires i < |events|
  {
    Reach(events[..i]).Some? && Repairs(Reach(events[..i]).value, events[i])
  }

  ghost predicate RepairedLater(events: seq<Event>, i: nat) {
    exists j :: i < j < |events| && RepairsAt(events, j)
  }

  /** Whatever broke was repaired later. */
  ghost predicate Mended(events: seq<Event>) {
    forall i :: 0 <= i < |events| && BreaksAt(events, i) ==> RepairedLater(events, i)
  }

  lemma {:induction false} AtPrefix(front: seq<Event>, e: Event, i: nat)
    requires i < |front|
    ensures BreaksAt(front + [e], i) == BreaksAt(front, i) && RepairsAt(front + [e], i) == RepairsAt(front, i)
  {
    assert (front + [e])[..i] == front[..i];
  }

  lemma {:induction false} AtLast(front: seq<Event>, e: Event)
    requires Reach(front).Some?
    ensures BreaksAt(front + [e], |front|) == Breaks(Reach(front).value, e)
    ensures RepairsAt(front + [e], |front|) == Repairs(Reach(front).value, e)
  {
    assert (front + [e])[..|front|] == front;
  }

  lemma {:induction false} MendedByLast(front: seq<Event>, e: Event)
    requires Reach(front).Some? && Repairs(Reach(front).value, e)
    ensures Mended(front + [e])
  {
    var events := front + [e];
    AtLast(front, e);
    forall i | 0 <= i < |events| && BreaksAt(events, i) ensures RepairedLater(events, i) {
      assert i < |front|;
    }
  }

  /** A last event that repairs nothing does not change what was repaired before. */
  lemma {:induction false} RepairedBefore(front: seq<Event>, e: Event, i: nat)
    requires Reach(front).Some? && !Repairs(Reach(front).value, e) && i < |front|
    ensures RepairedLater(front + [e], i) <==> RepairedLater(front, i)
  {
    var events := front + [e];
    AtLast(front, e);
    if j :| i < j < |front| && RepairsAt(front, j) {
      AtPrefix(front, e, j);
      assert RepairsAt(events, j);
    }
    if j :| i < j < |events| && RepairsAt(events, j) {
      AtPrefix(front, e, j);
      assert RepairsAt(front, j);
    }
  }

  lemma {:induction false} MendedBefore(front: seq<Event>, e: Event)
    requires Reach(front).Some? && !Repairs(Reach(front).value, e)
    ensures Mended(front + [e]) <==> Mended(front) && !Breaks(Reach(front).value, e)
  {
    var events := front + [e];
    AtLast(front, e);
    assert !RepairedLater(events, |front|);
    forall i | 0 <= i < |front|
      ensures BreaksAt(events, i) == BreaksAt(front, i) && RepairedLater(events, i) == RepairedLater(front, i)
    {
      AtPrefix(front, e, i);
      RepairedBefore(front, e, i);
    }
  }

  /** Whatever commands are cut short after whichever write: a run ends with the
      record having its secrets if and only if every half logout, and every record
      saved for an older API key, was followed by a login that got as far as its
      record or by a completed logout. */
  lemma {:induction false} SoundExactly(events: seq<Event>)
    requires Reach(events).Some?
    ensures Sound(Reach(events).value) <==> Mended(events)
  {
    if events != [] {
      var front, e := events[..|events| - 1], events[|events| - 1];
      assert events == front + [e];
      SoundExactly(front);
      NeverLegacy(front);
      SoundStep(Reach(front).value, e);
      if Repairs(Reach(front).value, e) {
        MendedByLast(front, e);
      } else {
        MendedBefore(front, e);
      }
    }
  }

  /** In particular in every run without such events. */
  lemma {:induction false} AlwaysSound(events: seq<Event>)
    requires Reach(events).Some?
    requires forall i :: 0 <= i < |events| ==> !BreaksAt(events, i)
    ensures Sound(Reach(events).value)
  {
    SoundExactly(events);
  }

  /** A token for an older API key always leaves a record without its secret. */
  lemma {:induction false} LegacyBreaks(events: seq<Event>, legacy: SessionRecord)
    requires Reach(events).Some? && Allowed(Reach(events).value, Event(LegacyCommand(legacy), 1))
    ensures !Sound(After(Reach(events).value, Event(LegacyCommand(legacy), 1)))
  {
    NeverLegacy(events);
    SoundStep(Reach(events).value, Event(LegacyCommand(legacy), 1));
  }

  /** A completed login or logout makes the storage sound again in any case,
      though it does not remove what an interrupted login left: see below. */
  lemma {:induction false} Recovers(s: Storage, e: Event)
    requires Allowed(s, e) && Whole(s, e) && (e.command.LoginCommand? || e.command.LogoutCommand?)
    ensures Sound(After(s, e))
  {
    var writes := Writes(s, e.command);
    assert writes[..|writes|] == writes;
    match e.command
    case LoginCommand(input, token, expiry) => LoginCompletes(s, input, token, expiry);
    case LogoutCommand => LogoutCompletes(s);
    case _ =>
  }

  // ---- secrets left behind -----------------------------------------------------------

  /** A secret of a session that is not the current one. */
  ghost predicate Orphaned(s: Storage, a: Account) {
    a in s.keyring && (s.record.Some? ==> s.record.value.sessionId != a.sessionId)
  }

  lemma {:induction false} TidyNoOrphan(s: Storage)
    ensures Tidy(s) <==> forall a :: !Orphaned(s, a)
  {
    if !Tidy(s) {
      var a :| a in s.keyring && !(s.record.Some? && a.sessionId == s.record.value.sessionId);
      assert Orphaned(s, a);
    } else {
      forall a ensures !Orphaned(s, a) {
      }
    }
  }

  /** A write that neither touches an account nor makes its session current. */
  ghost predicate Spares(w: Write, a: Account) {
    match w
    case StoreSecret(account, _) => account != a
    case SaveRecord(record) => record.sessionId != a.sessionId
    case DeleteSecret(account) => account != a
    case DeleteRecord => true
  }

  lemma {:induction false} SparedByAll(s: Storage, writes: seq<Write>, a: Account)
    requires Orphaned(s, a) && forall i :: 0 <= i < |writes| ==> Spares(writes[i], a)
    ensures Orphaned(ApplyAll(s, writes), a) && ApplyAll(s, writes).keyring[a] == s.keyring[a]
    decreases |writes|
  {
    if writes != [] {
      assert Spares(writes[0], a);
      assert forall i :: 0 <= i < |writes[1..]| ==> writes[1..][i] == writes[i + 1];
      SparedByAll(Apply(s, writes[0]), writes[1..], a);
    }
  }

  lemma {:induction false} CommandSpares(s: Storage, e: Event, a: Account)
    requires Orphaned(s, a) && Allowed(s, e) && (e.command.LegacyCommand? ==> a.sessionId != LEGACY_ID)
    ensures forall i :: 0 <= i < e.done ==> Spares(Writes(s, e.command)[i], a)
  {
  }

  /** A secret left behind stays, unchanged, through every later command,
      complete or cut short: no command knows of its session any more. */
  lemma {:induction false} OrphanStays(s: Storage, e: Event, a: Account)
    requires Orphaned(s, a) && Allowed(s, e) && (e.command.LegacyCommand? ==> a.sessionId != LEGACY_ID)
    ensures Orphaned(After(s, e), a) && After(s, e).keyring[a] == s.keyring[a]
  {
    CommandSpares(s, e, a);
    var writes := Writes(s, e.command)[..e.done];
    assert forall i :: 0 <= i < |writes| ==> writes[i] == Writes(s, e.command)[i];
    SparedByAll(s, writes, a);
  }

  /** The old session's account has no secret after `k` writes of a login; its
      deletion is write number `at`. */
  ghost predicate Gone(s: Storage, kind: SecretKind, k: nat, at: nat) {
    s.record.Some? ==> k > at || Account(kind, s.record.value.sessionId) !in s.keyring
  }

  /** A login cut after `k` writes leaves no secrets behind: nothing was written
      yet, or the record was, and what the old session had is deleted. */
  ghost predicate CleanCut(s: Storage, input: LoginInput, k: nat) {
    var saved := SaveAt(input) + 1;
    k == 0 || (k >= saved && Gone(s, Access, k, saved) && Gone(s, Refresh, k, saved + 1))
  }

  /** The keyring after `k` writes of a login. */
  ghost predicate LoginKeyring(s: Storage, input: LoginInput, st: Storage, k: nat) {
    var saved := SaveAt(input) + 1;
    && (forall a :: a in st.keyring ==> a in s.keyring || a.sessionId == input.sessionId)
    && (forall a :: a in s.keyring && (s.record.Some? ==> a.sessionId != s.record.value.sessionId) ==> a in st.keyring)
    && (s.record.Some? ==>
      forall kind :: Account(kind, s.record.value.sessionId) in st.keyring <==>
        Account(kind, s.record.value.sessionId) in s.keyring && k <= (if kind.Access? then saved else saved + 1))
  }

  /** Which write of a login is number `k`. */
  ghost predicate LoginWriteAt(s: Storage, input: LoginInput, w: Write, k: nat) {
    var saved := SaveAt(input) + 1;
    if k + 1 < saved then w.StoreSecret? && w.account.sessionId == input.sessionId
    else if k + 1 == saved then w.SaveRecord?
    else s.record.Some? && w == DeleteSecret(Account(if k == saved then Access else Refresh, s.record.value.sessionId))
  }

  lemma {:induction false} LoginWriteKinds(s: Storage, input: LoginInput, token: string, expiresAt: Option<int>, k: nat)
    requires k < |LoginWrites(s, input, token, expiresAt)|
    ensures LoginWriteAt(s, input, LoginWrites(s, input, token, expiresAt)[k], k)
  {
  }

  lemma {:induction false} LoginKeyringStep(s: Storage, input: LoginInput, st: Storage, w: Write, k: nat)
    requires Unused(s, input.sessionId) && LoginKeyring(s, input, st, k) && LoginWriteAt(s, input, w, k)
    requires k <= SaveAt(input) + 2
    ensures LoginKeyring(s, input, Apply(st, w), k + 1)
  {
  }

  lemma {:induction false} LoginKeyrings(s: Storage, input: LoginInput, token: string, expiresAt: Option<int>, k: nat)
    requires Unused(s, input.sessionId) && k <= |LoginWrites(s, input, token, expiresAt)|
    ensures LoginKeyring(s, input, ApplyAll(s, LoginWrites(s, input, token, expiresAt)[..k]), k)
  {
    var writes := LoginWrites(s, input, token, expiresAt);
    if k == 0 {
      assert writes[..0] == [];
    } else {
      LoginKeyrings(s, input, token, expiresAt, k - 1);
      OneMore(s, writes, k - 1);
      LoginWriteKinds(s, input, token, expiresAt, k - 1);
      assert |writes| <= SaveAt(input) + 3;
      LoginKeyringStep(s, input, ApplyAll(s, writes[..k - 1]), writes[k - 1], k - 1);
    }
  }

  /** Exactly when a login cut after `k` writes leaves the keyring tidy. */
  lemma {:induction false} LoginTidy(s: Storage, input: LoginInput, token: string, expiresAt: Option<int>, k: nat)
    requires Tidy(s) && Unused(s, input.sessionId) && k <= |LoginWrites(s, input, token, expiresAt)|
    ensures Tidy(ApplyAll(s, LoginWrites(s, input, token, expiresAt)[..k])) <==> CleanCut(s, input, k)
  {
    var st := ApplyAll(s, LoginWrites(s, input, token, expiresAt)[..k]);
    LoginStages(s, input, token, expiresAt, k);
    LoginKeyrings(s, input, token, expiresAt, k);
    if k == 0 {
      assert LoginWrites(s, input, token, expiresAt)[..0] == [];
    } else if k <= SaveAt(input) {
      assert Orphaned(st, Account(Access, input.sessionId));
      TidyNoOrphan(st);
    } else if !CleanCut(s, input, k) {
      var id := s.record.value.sessionId;
      assert Orphaned(st, Account(Access, id)) || Orphaned(st, Account(Refresh, id));
      TidyNoOrphan(st);
    } else {
      TidyAfterSave(s, input, st, k);
    }
  }

  lemma {:induction false} TidyAfterSave(s: Storage, input: LoginInput, st: Storage, k: nat)
    requires Tidy(s) && CleanCut(s, input, k) && k > SaveAt(input)
    requires LoginKeyring(s, input, st, k) && st.record.Some? && st.record.value.sessionId == input.sessionId
    ensures Tidy(st)
  {
    forall a | a in st.keyring ensures a.sessionId == input.sessionId {
      if a.sessionId != input.sessionId {
        assert a == Account(a.kind, s.record.value.sessionId);
        match a.kind
        case Access =>
        case Refresh =>
      }
    }
  }

  /** ... from a sound storage: untouched, complete, or short of the one deletion
      that finds nothing because the old session had no refresh secret. */
  lemma {:induction false} LoginTidyWhenSound(s: Storage, input: LoginInput, token: string, expiresAt: Option<int>, k: nat)
    requires Sound(s) && Tidy(s) && Unused(s, input.sessionId) && k <= |LoginWrites(s, input, token, expiresAt)|
    ensures var n := |LoginWrites(s, input, token, expiresAt)|;
      var lastIsIdle := s.record.Some? && Account(Refresh, s.record.value.sessionId) !in s.keyring;
      Tidy(ApplyAll(s, LoginWrites(s, input, token, expiresAt)[..k])) <==> k == 0 || k == n || (k == n - 1 && lastIsIdle)
  {
    LoginTidy(s, input, token, expiresAt, k);
  }

  /** The event leaves nothing behind: only logins can. */
  ghost predicate LeavesNothing(s: Storage, e: Event) {
    e.command.LoginCommand? ==> CleanCut(s, e.command.input, e.done)
  }

  lemma {:induction false} EventTidy(s: Storage, e: Event)
    requires Tidy(s) && Allowed(s, e)
    ensures Tidy(After(s, e)) <==> LeavesNothing(s, e)
  {
    match e.command
    case LoginCommand(input, token, expiry) => LoginTidy(s, input, token, expiry, e.done);
    case RenewCommand(r, token) => OwnAccountsTidy(s, r.sessionId, RenewWrites(r, token)[..e.done]);
    case ResaveCommand(r) => OwnAccountsTidy(s, r.sessionId, [SaveRecord(r)][..e.done]);
    case LegacyCommand(r) => OneSave(s, r, e.done);
    case LogoutCommand => LogoutTidy(s, e.done);
    case NoChange =>
  }

  /** Writes of the current session's own secrets and record keep things tidy. */
  lemma {:induction false} OwnAccountsTidy(s: Storage, id: SessionId, writes: seq<Write>)
    requires Tidy(s) && s.record.Some? && s.record.value.sessionId == id
    requires forall i :: 0 <= i < |writes| ==>
      (writes[i].StoreSecret? && writes[i].account.sessionId == id) || (writes[i].SaveRecord? && writes[i].record.sessionId == id)
    ensures Tidy(ApplyAll(s, writes))
    decreases |writes|
  {
    if writes != [] {
      assert forall i :: 0 <= i < |writes[1..]| ==> writes[1..][i] == writes[i + 1];
      OwnAccountsTidy(Apply(s, writes[0]), id, writes[1..]);
    }
  }

  lemma {:induction false} LogoutTidy(s: Storage, k: nat)
    requires Tidy(s) && k <= |LogoutWrites(s)|
    ensures Tidy(ApplyAll(s, LogoutWrites(s)[..k]))
  {
    var writes := LogoutWrites(s);
    assert writes[..0] == [];
    if k == |writes| {
      assert writes[..k] == writes;
      LogoutCompletes(s);
    } else {
      if k >= 1 { OneMore(s, writes, 0); }
      if k >= 2 { OneMore(s, writes, 1); }
    }
  }

  /** Event number `i` of a run leaves nothing behind. */
  ghost predicate CleanAt(events: seq<Event>, i: nat)
    requires i < |events|
  {
    Reach(events[..i]).Some? ==> LeavesNothing(Reach(events[..i]).value, events[i])
  }

  ghost predicate AllClean(events: seq<Event>) {
    forall i :: 0 <= i < |events| ==> CleanAt(events, i)
  }

  lemma {:induction false} AllCleanSnoc(front: seq<Event>, e: Event)
    ensures AllClean(front + [e]) <==> AllClean(front) && (Reach(front).Some? ==> LeavesNothing(Reach(front).value, e))
  {
    var events := front + [e];
    forall i | 0 <= i < |front| ensures CleanAt(events, i) == CleanAt(front, i) {
      assert events[..i] == front[..i];
    }
    assert events[..|front|] == front;
    assert CleanAt(events, |front|) <==> (Reach(front).Some? ==> LeavesNothing(Reach(front).value, e));
    if AllClean(events) {
      assert forall i :: 0 <= i < |front| ==> CleanAt(events, i);
    }
  }

  /** In every run, whatever is cut short after whichever write, the keyring holds
      the secrets of the current session only, if and only if no login was cut
      between its first write and the last deletion that had something to delete. */
  lemma {:induction false} TidyExactly(events: seq<Event>)
    requires Reach(events).Some?
    ensures Tidy(Reach(events).value) <==> AllClean(events)
  {
    if events != [] {
      var front, e := events[..|events| - 1], events[|events| - 1];
      assert events == front + [e];
      TidyExactly(front);
      NeverLegacy(front);
      AllCleanSnoc(front, e);
      TidyStep(Reach(front).value, e);
    }
  }

  lemma {:induction false} TidyStep(s: Storage, e: Event)
    requires Allowed(s, e) && NoLegacySecret(s)
    ensures Tidy(After(s, e)) <==> Tidy(s) && LeavesNothing(s, e)
  {
    if Tidy(s) {
      EventTidy(s, e);
    } else {
      TidyNoOrphan(s);
      var a :| Orphaned(s, a);
      OrphanStays(s, e, a);
      TidyNoOrphan(After(s, e));
    }
  }

  /** A completed logout leaves an empty keyring exactly when it found it tidy. */
  lemma {:induction false} LogoutEmpties(s: Storage)
    ensures ApplyAll(s, LogoutWrites(s)).record.None?
    ensures ApplyAll(s, LogoutWrites(s)).keyring == map[] <==> Tidy(s)
  {
    LogoutCompletes(s);
    if !Tidy(s) {
      TidyNoOrphan(s);
      var a :| Orphaned(s, a);
      var e := Event(LogoutCommand, |LogoutWrites(s)|);
      assert LogoutWrites(s)[..e.done] == LogoutWrites(s);
      OrphanStays(s, e, a);
    }
  }

  /** So a logout at the end of a run leaves neither record nor secrets if and
      only if no login of the run was cut where it leaves something behind. */
  lemma {:induction false} LogoutAfterRun(events: seq<Event>)
    requires Reach(events).Some?
    ensures var after := ApplyAll(Reach(events).value, LogoutWrites(Reach(events).value));
      && after.record.None?
      && (after.keyring == map[] <==> AllClean(events))
  {
    LogoutEmpties(Reach(events).value);
    TidyExactly(events);
  }

  /** The first sign-in to a fresh installation, cut before its record is saved,
      leaves the account's secret in the keyring, and a logout does not remove it. */
  lemma {:induction false} SecretLeft(input: LoginInput, token: string, expiresAt: Option<int>)
    requires input.authMethod.Stellar? && input.sessionId != LEGACY_ID
    ensures var events := [Event(LoginCommand(input, token, expiresAt), 2), Event(LogoutCommand, 0)];
      && Reach(events).Some? && Reach(events).value.record.None?
      && LogoutWrites(Reach(events).value) == []
      && Account(Refresh, input.sessionId) in Reach(events).value.keyring
      && Reach(events).value.keyring[Account(Refresh, input.sessionId)] == input.secret
  {
    var start := Storage(None, map[]);
    var login, logout := Event(LoginCommand(input, token, expiresAt), 2), Event(LogoutCommand, 0);
    var writes := LoginWrites(start, input, token, expiresAt);
    assert [login][..0] == [] && [login, logout][..1] == [login];
    assert writes[..2] == [StoreSecret(Account(Access, input.sessionId), token),
                           StoreSecret(Account(Refresh, input.sessionId), input.secret)];
    Two(start, writes[0], writes[1]);
    assert Reach([]) == Some(start);
    assert Reach([login]) == Some(After(start, login));
    assert Reach([login, logout]) == Some(After(After(start, login), logout));
  }

  /** While every command completes, the keyring holds the secrets of the
      current session only, and all of them unless an older API key was used. */
  lemma {:induction false} AlwaysTidy(events: seq<Event>)
    requires Reach(events).Some?
    requires forall i :: 0 <= i < |events| && Reach(events[..i]).Some? ==> Whole(Reach(events[..i]).value, events[i])
    ensures Tidy(Reach(events).value)
    ensures (forall i :: 0 <= i < |events| ==> !events[i].command.LegacyCommand?) ==> Sound(Reach(events).value)
  {
    TidyExactly(events);
    forall i | 0 <= i < |events| ensures CleanAt(events, i) {
    }
    if forall i :: 0 <= i < |events| ==> !events[i].command.LegacyCommand? {
      forall i | 0 <= i < |events| ensures !BreaksAt(events, i) {
      }
      AlwaysSound(events);
    }
  }
}
