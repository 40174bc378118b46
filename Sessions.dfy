/**
  The session tokens of lib/server.js (`auth.authTokens`): a token is added by
  a successful login, looked up by every page that needs a logged-in user,
  and removed by logout. The random token of a login is a parameter here.
*/
module Sessions {
  import opened Credentials
  import JsObjects

  /** What happened to the token set: a login that issued a token, or a logout. */
  datatype SessionEvent = LoggedIn(token: string) | LoggedOut(token: string)

  /** The tokens alive after a history of logins and logouts. */
  function LiveTokens(history: seq<SessionEvent>): set<string>
    decreases |history|
  {
    if history == [] then {}
    else
      var before := LiveTokens(history[..|history| - 1]);
      match history[|history| - 1]
      case LoggedIn(t) => before + {t}
      case LoggedOut(t) => before - {t}
  }

  /** A token is alive iff some login issued it and no later logout removed it. */
  lemma {:induction false} LiveTokensMeaning(history: seq<SessionEvent>, t: string)
    ensures t in LiveTokens(history) <==>
            exists i :: 0 <= i < |history| && history[i] == LoggedIn(t) &&
                        forall j :: i < j < |history| ==> history[j] != LoggedOut(t)
    decreases |history|
  {
    if history != [] {
      var n := |history| - 1;
      var before := history[..n];
      LiveTokensMeaning(before, t);
      assert forall i :: 0 <= i < n ==> before[i] == history[i];
      if history[n] == LoggedIn(t) {
        assert t in LiveTokens(history);
      } else if history[n] == LoggedOut(t) {
        assert t !in LiveTokens(history);
      } else {
        assert t in LiveTokens(history) <==> t in LiveTokens(before);
        if t in LiveTokens(before) {
          var i :| 0 <= i < n && before[i] == LoggedIn(t) &&
                   forall j :: i < j < n ==> before[j] != LoggedOut(t);
          assert history[i] == LoggedIn(t);
        }
      }
    }
  }

  /**
    `isValidUser` as written: a present token whose lookup in the token object
    is truthy, which includes the members inherited from `Object.prototype`.
  */
  predicate IsValidUserAsWritten(tokens: set<string>, token: string): (b: bool)
    ensures IsValidUser(tokens, token) ==> b
    ensures b && !IsValidUser(tokens, token) ==> token in JsObjects.InheritedKeys
  {
    token != "" && JsObjects.Truthy(tokens, token)
  }

  /** `isValidUser` as intended: a present token that a login issued. */
  predicate IsValidUser(tokens: set<string>, token: string)
  {
    token != "" && token in tokens
  }

  /**
    A cookie `analyticsAuthToken=constructor` passes the check as written
    although no login ever issued it; the intended check refuses it.
  */
  lemma InheritedNamePassesAsWritten(history: seq<SessionEvent>)
    requires forall i :: 0 <= i < |history| ==> history[i] != LoggedIn("constructor")
    ensures IsValidUserAsWritten(LiveTokens(history), "constructor")
    ensures !IsValidUser(LiveTokens(history), "constructor")
  {
    LiveTokensMeaning(history, "constructor");
  }

  /** The credential record together with the live session tokens. */
  class Auth {
    const record: AuthRecord
    var tokens: set<string>
    ghost var history: seq<SessionEvent>

    ghost predicate Valid()
      reads this
    {
      tokens == LiveTokens(history) && "" !in tokens
    }

    constructor (record: AuthRecord)
      ensures Valid() && this.record == record && history == []
    {
      this.record := record;
      tokens := {};
      history := [];
    }

    /**
      `/auth`: on accepted credentials, records the new `token` (a non-empty
      base64 rendering of random bytes) as valid.
    */
    method Login(kdf: Kdf, username: string, password: string, token: string) returns (ok: bool)
      requires Valid() && token != ""
      modifies this
      ensures Valid()
      ensures ok <==> Accepts(record, kdf, username, password)
      ensures history == if ok then old(history) + [LoggedIn(token)] else old(history)
      ensures tokens == if ok then old(tokens) + {token} else old(tokens)
    {
      ok := CheckCredentials(record, kdf, username, password);
      if ok {
        tokens := tokens + {token};
        history := history + [LoggedIn(token)];
      }
    }

    /** `/logout`: forgets the cookie's token; without a token nothing changes. */
    method Logout(token: string)
      requires Valid()
      modifies this
      ensures Valid()
      ensures tokens == old(tokens) - {token}
      ensures history == if token == "" then old(history) else old(history) + [LoggedOut(token)]
    {
      if token != "" {
        tokens := tokens - {token};
        history := history + [LoggedOut(token)];
      }
    }

    /** Whether a request carrying `token` comes from a logged-in user. */
    function IsLoggedIn(token: string): (b: bool)
      reads this
      requires Valid()
      ensures b <==> token != "" && token in LiveTokens(history)
      ensures b ==> exists i :: 0 <= i < |history| && history[i] == LoggedIn(token)
    {
      LiveTokensMeaning(history, token);
      IsValidUser(tokens, token)
    }
  }
}
