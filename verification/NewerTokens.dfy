/** Which credential pair of an imported Codex login may be adopted (`src/codex_token_store.rs`,
    `ImportedAuth::newer_tokens`), and why adopting them one after another never goes back. */
module NewerTokens {
  import opened Options

  datatype Login = Login(access: string, refresh: string, accountId: Option<string>, userId: Option<string>,
                         isFedramp: bool, expiresAtMs: Option<int>)

  /** The file as read: its login, its id token and its `last_refresh`. */
  datatype Auth = Auth(login: Login, idToken: Option<string>, lastRefreshMs: Option<int>)

  datatype Tokens = Tokens(idToken: Option<string>, access: string, refresh: string, expiresAtMs: int)

  /** What a token's claims say: when it was issued and for which workspace. Neither need be readable. */
  datatype Claims = Claims(iatMs: string -> Option<int>, account: string -> Option<string>)

  /** Whether the file's timestamp rules the pair out against the baseline. */
  predicate StaleStamp(current: Option<int>, after: Option<int>, rejected: bool) {
    after.Some? &&
      if current.Some? then current.value < after.value || (current.value == after.value && !rejected)
      else !rejected
  }

  /** Whether the issuance times rule it out; without an advance a baseline or a rejection is needed. */
  predicate StaleIssue(previous: Option<int>, candidate: Option<int>, after: Option<int>, rejected: bool) {
    if previous.Some? && candidate.Some? && candidate.value < previous.value then true
    else if previous.Some? && candidate.Some? && candidate.value > previous.value then false
    else after.None? && !rejected
  }

  predicate NamesOther(c: Claims, token: Option<string>, account: string) {
    token.Some? && c.account(token.value).Some? && c.account(token.value).value != account
  }

  function Newer(c: Claims, auth: Auth, previousRefresh: string, previousAccess: string, accountId: Option<string>,
                 userId: Option<string>, after: Option<int>, rejected: bool): Option<Tokens>
  {
    var login := auth.login;
    if accountId.None? || accountId.value == "" then None
    else if login.refresh == previousRefresh || login.access == previousAccess || login.accountId != accountId
            || login.isFedramp || (userId.Some? && login.userId.Some? && userId != login.userId)
            || StaleStamp(auth.lastRefreshMs, after, rejected) then None
    else if StaleIssue(c.iatMs(previousAccess), c.iatMs(login.access), after, rejected) then None
    else if NamesOther(c, Some(login.access), accountId.value) || NamesOther(c, auth.idToken, accountId.value) then None
    else
      var idToken := if auth.idToken == Some("") then None else auth.idToken;
      Some(Tokens(idToken, login.access, login.refresh, if login.expiresAtMs.None? then 0 else login.expiresAtMs.value))
  }

  // ----- Chains of adoptions -----

  /** One adoption: the file it was made from, the baseline and whether the previous token had been
      rejected. */
  datatype Adoption = Adoption(auth: Auth, after: Option<int>, rejected: bool)

  /** One pair is adopted over another. */
  predicate Taken(c: Claims, account: Option<string>, user: Option<string>, a: Adoption, b: Adoption) {
    Newer(c, b.auth, a.auth.login.refresh, a.auth.login.access, account, user, b.after, b.rejected).Some?
  }

  predicate Linked(c: Claims, account: Option<string>, user: Option<string>, chain: seq<Adoption>, i: int)
    requires 0 < i < |chain|
  {
    Taken(c, account, user, chain[i - 1], chain[i])
  }

  /** Each file's pair is adopted over the one before it. */
  predicate Chain(c: Claims, account: Option<string>, user: Option<string>, chain: seq<Adoption>) {
    forall i :: 0 < i < |chain| ==> Linked(c, account, user, chain, i)
  }

  function Iat(c: Claims, a: Adoption): Option<int> { c.iatMs(a.auth.login.access) }

  predicate Readable(c: Claims, chain: seq<Adoption>) {
    forall i :: 0 <= i < |chain| ==> Iat(c, chain[i]).Some?
  }

  // ----- One adoption, for every login, baseline and rejection -----

  /** The file's login is the expected one: its workspace, not a FedRAMP one, the user where both sides
      know one, and no token that names another workspace. */
  predicate IsSameLogin(c: Claims, auth: Auth, account: Option<string>, user: Option<string>) {
    && account.Some? && account.value != "" && auth.login.accountId == account && !auth.login.isFedramp
    && (user.Some? && auth.login.userId.Some? ==> user.value == auth.login.userId.value)
    && MayName(c, auth.login.access, account) && (auth.idToken.Some? ==> MayName(c, auth.idToken.value, account))
  }

  /** The token's claims name the workspace, or none. */
  predicate MayName(c: Claims, token: string, account: Option<string>) { c.account(token).None? || c.account(token) == account }

  predicate IssuedLater(previous: Option<int>, candidate: Option<int>) {
    previous.Some? && candidate.Some? && previous.value < candidate.value
  }

  /** The times of a fresher pair: without a rejection a later issuance where there is no baseline, and a
      timestamp past the baseline with no earlier issuance where there is one; after a rejection no
      earlier issuance, and a timestamp before the baseline only when it cannot be read. */
  predicate IsFresher(previous: Option<int>, candidate: Option<int>, after: Option<int>, stamp: Option<int>, rejected: bool) {
    if rejected then !IssuedLater(candidate, previous) && (after.Some? && stamp.Some? ==> after.value <= stamp.value)
    else if after.None? then IssuedLater(previous, candidate)
    else stamp.Some? && after.value < stamp.value && !IssuedLater(candidate, previous)
  }

  /** A pair is adopted exactly when it is the same login's, both tokens are new and it is fresher; what is
      adopted is the file's pair, its id token unless empty, and its expiry or 0. */
  lemma NewerIff(c: Claims, auth: Auth, previousRefresh: string, previousAccess: string, accountId: Option<string>,
                 userId: Option<string>, after: Option<int>, rejected: bool)
    ensures var r := Newer(c, auth, previousRefresh, previousAccess, accountId, userId, after, rejected);
      && (r.Some? <==>
            && IsSameLogin(c, auth, accountId, userId)
            && auth.login.refresh != previousRefresh && auth.login.access != previousAccess
            && IsFresher(c.iatMs(previousAccess), c.iatMs(auth.login.access), after, auth.lastRefreshMs, rejected))
      && (r.Some? ==>
            && r.value.access == auth.login.access && r.value.refresh == auth.login.refresh
            && (forall t :: r.value.idToken == Some(t) <==> auth.idToken == Some(t) && t != "")
            && (forall ms :: auth.login.expiresAtMs == Some(ms) ==> r.value.expiresAtMs == ms)
            && (auth.login.expiresAtMs.None? ==> r.value.expiresAtMs == 0))
  {
  }

  /** Issuance never goes back, rejections or not. */
  lemma {:induction false} IssuanceNeverDecreases(c: Claims, account: Option<string>, user: Option<string>,
                                                  chain: seq<Adoption>, i: nat, k: nat)
    requires Chain(c, account, user, chain) && Readable(c, chain) && i <= k < |chain|
    ensures Iat(c, chain[i]).value <= Iat(c, chain[k]).value
    decreases k
  {
    if i < k {
      IssuanceNeverDecreases(c, account, user, chain, i, k - 1);
      assert Linked(c, account, user, chain, k) && Iat(c, chain[k - 1]).Some? && Iat(c, chain[k]).Some?;
    }
  }

  /** Ordinary adoptions: nothing was rejected, and each baseline is the previous file's timestamp. */
  predicate Ordinary(chain: seq<Adoption>) { forall i :: 0 < i < |chain| ==> OrdinaryAt(chain, i) }

  predicate OrdinaryAt(chain: seq<Adoption>, i: int)
    requires 0 < i < |chain|
  {
    !chain[i].rejected && chain[i].after == chain[i - 1].auth.lastRefreshMs
  }

  /** Lexicographic order on (issued at, last refresh). */
  predicate Before(c: Claims, a: Adoption, b: Adoption)
    requires Iat(c, a).Some? && Iat(c, b).Some?
  {
    || Iat(c, a).value < Iat(c, b).value
    || (Iat(c, a) == Iat(c, b) && a.auth.lastRefreshMs.Some? && b.auth.lastRefreshMs.Some?
        && a.auth.lastRefreshMs.value < b.auth.lastRefreshMs.value)
  }

  lemma OrdinaryStep(c: Claims, account: Option<string>, user: Option<string>, a: Adoption, b: Adoption)
    requires Newer(c, b.auth, a.auth.login.refresh, a.auth.login.access, account, user, b.after, b.rejected).Some?
    requires Iat(c, a).Some? && Iat(c, b).Some? && !b.rejected && b.after == a.auth.lastRefreshMs
    ensures Before(c, a, b)
  {
  }

  lemma BeforeTransitive(c: Claims, a: Adoption, b: Adoption, d: Adoption)
    requires Iat(c, a).Some? && Iat(c, b).Some? && Iat(c, d).Some? && Before(c, a, b) && Before(c, b, d)
    ensures Before(c, a, d)
  {
  }

  lemma {:induction false} OrdinaryIncreases(c: Claims, account: Option<string>, user: Option<string>,
                                             chain: seq<Adoption>, i: nat, k: nat)
    requires Chain(c, account, user, chain) && Readable(c, chain) && Ordinary(chain) && i < k < |chain|
    ensures Before(c, chain[i], chain[k])
    decreases k
  {
    hide Newer, Before;
    assert Linked(c, account, user, chain, k) && OrdinaryAt(chain, k);
    assert Iat(c, chain[i]).Some? && Iat(c, chain[k - 1]).Some? && Iat(c, chain[k]).Some?;
    OrdinaryStep(c, account, user, chain[k - 1], chain[k]);
    if i < k - 1 {
      OrdinaryIncreases(c, account, user, chain, i, k - 1);
      BeforeTransitive(c, chain[i], chain[k - 1], chain[k]);
    }
  }

  /** So no file is adopted twice, and a token pair comes back only when nothing in between was
      issued at another time, and then under a later timestamp. */
  lemma NothingTwice(c: Claims, account: Option<string>, user: Option<string>, chain: seq<Adoption>, i: nat, k: nat)
    requires Chain(c, account, user, chain) && Readable(c, chain) && Ordinary(chain) && i < k < |chain|
    ensures chain[i].auth != chain[k].auth
    ensures chain[i].auth.login.access == chain[k].auth.login.access ==>
      && chain[i].auth.lastRefreshMs.Some? && chain[k].auth.lastRefreshMs.Some?
      && chain[i].auth.lastRefreshMs.value < chain[k].auth.lastRefreshMs.value
      && forall m :: i <= m <= k ==> Iat(c, chain[m]) == Iat(c, chain[i])
  {
    hide Chain, Ordinary;
    OrdinaryIncreases(c, account, user, chain, i, k);
    forall m | i <= m <= k ensures Iat(c, chain[i]).value <= Iat(c, chain[m]).value <= Iat(c, chain[k]).value {
      IssuanceNeverDecreases(c, account, user, chain, i, m);
      IssuanceNeverDecreases(c, account, user, chain, m, k);
    }
  }

  // ----- Exactly which files follow each other -----

  /** A file of the workspace: whether to adopt it is a matter of tokens and times only. */
  predicate Belongs(c: Claims, account: string, user: Option<string>, auth: Auth) {
    && account != "" && auth.login.accountId == Some(account) && !auth.login.isFedramp
    && (user.Some? && auth.login.userId.Some? ==> user == auth.login.userId)
    && !NamesOther(c, Some(auth.login.access), account) && !NamesOther(c, auth.idToken, account)
    && c.iatMs(auth.login.access).Some?
  }

  /** Each file over the one before it, with that file's timestamp as the baseline and no rejection. */
  function InTurn(files: seq<Auth>): seq<Adoption> {
    seq(|files|, i requires 0 <= i < |files| => Adoption(files[i], if i == 0 then None else files[i - 1].lastRefreshMs, false))
  }

  /** The issuance time, of the tokens that have a readable one. */
  function IssuedAt(c: Claims, auth: Auth): int {
    if c.iatMs(auth.login.access).Some? then c.iatMs(auth.login.access).value else 0
  }

  predicate OtherTokens(a: Auth, b: Auth) { a.login.access != b.login.access && a.login.refresh != b.login.refresh }

  /** The timestamp is there and later. */
  predicate Later(a: Auth, b: Auth) {
    a.lastRefreshMs.Some? && b.lastRefreshMs.Some? && a.lastRefreshMs.value < b.lastRefreshMs.value
  }

  /** When a file is adopted over another: other tokens, issued no earlier, and under a later timestamp;
      or issued later, when the other file has no timestamp to go by. */
  predicate Follows(c: Claims, a: Auth, b: Auth) {
    OtherTokens(a, b) &&
      if a.lastRefreshMs.Some? then Later(a, b) && IssuedAt(c, a) <= IssuedAt(c, b) else IssuedAt(c, a) < IssuedAt(c, b)
  }

  predicate FollowsAt(c: Claims, files: seq<Auth>, i: int)
    requires 0 < i < |files|
  {
    Follows(c, files[i - 1], files[i])
  }

  lemma AdoptedIff(c: Claims, account: string, user: Option<string>, a: Auth, b: Auth)
    requires Belongs(c, account, user, a) && Belongs(c, account, user, b)
    ensures Newer(c, b, a.login.refresh, a.login.access, Some(account), user, a.lastRefreshMs, false).Some? <==> Follows(c, a, b)
  {
  }

  /** The files of a workspace are adopted one after another exactly when each follows the one before. */
  lemma ChainIff(c: Claims, account: string, user: Option<string>, files: seq<Auth>)
    requires forall i :: 0 <= i < |files| ==> Belongs(c, account, user, files[i])
    ensures Chain(c, Some(account), user, InTurn(files)) <==> forall i :: 0 < i < |files| ==> FollowsAt(c, files, i)
    ensures Ordinary(InTurn(files))
  {
    hide Newer, Belongs, Follows, Taken;
    var chain := InTurn(files);
    forall i | 0 < i < |files|
      ensures Linked(c, Some(account), user, chain, i) <==> FollowsAt(c, files, i)
    {
      assert Belongs(c, account, user, files[i - 1]) && Belongs(c, account, user, files[i]);
      LinkedIff(c, account, user, files, i);
    }
  }

  lemma LinkedIff(c: Claims, account: string, user: Option<string>, files: seq<Auth>, i: int)
    requires 0 < i < |files| && Belongs(c, account, user, files[i - 1]) && Belongs(c, account, user, files[i])
    ensures Linked(c, Some(account), user, InTurn(files), i) <==> FollowsAt(c, files, i)
  {
    hide Newer, Belongs, Follows;
    AdoptedIff(c, account, user, files[i - 1], files[i]);
  }

  /** Issuance does not go back from file to file. */
  lemma {:induction false} FollowsNoEarlier(c: Claims, files: seq<Auth>, i: nat, k: nat)
    requires (forall m :: 0 < m < |files| ==> FollowsAt(c, files, m)) && i <= k < |files|
    ensures IssuedAt(c, files[i]) <= IssuedAt(c, files[k])
  {
    if i < k {
      FollowsNoEarlier(c, files, i, k - 1);
      assert FollowsAt(c, files, k);
    }
  }

  predicate SameIssue(c: Claims, a: Auth, b: Auth) { c.iatMs(a.login.access) == c.iatMs(b.login.access) }

  /** One step of a cycle. */
  predicate Turns(c: Claims, a: Auth, b: Auth) { OtherTokens(a, b) && SameIssue(c, a, b) && Later(a, b) }

  predicate TurnsAt(c: Claims, files: seq<Auth>, i: int)
    requires 0 < i < |files|
  {
    Turns(c, files[i - 1], files[i])
  }

  /** A token pair comes back, over any number of files, exactly when every file in between was issued
      at the same time, each has other tokens than the one before, and the timestamps advance. */
  lemma ReturnsIff(c: Claims, account: string, user: Option<string>, files: seq<Auth>)
    requires forall i :: 0 <= i < |files| ==> Belongs(c, account, user, files[i])
    requires |files| > 1 && files[0].login.access == files[|files| - 1].login.access
    ensures Chain(c, Some(account), user, InTurn(files)) <==> forall i :: 0 < i < |files| ==> TurnsAt(c, files, i)
  {
    ChainIff(c, account, user, files);
    hide Chain, InTurn, Belongs;
    forall i | 0 < i < |files| ensures TurnsAt(c, files, i) ==> FollowsAt(c, files, i) {
      assert Belongs(c, account, user, files[i]);
      TurnsFollow(c, account, user, files[i - 1], files[i]);
    }
    if forall i :: 0 < i < |files| ==> FollowsAt(c, files, i) {
      forall i | 0 < i < |files| ensures TurnsAt(c, files, i) {
        FollowsNoEarlier(c, files, 0, i - 1);
        FollowsNoEarlier(c, files, i, |files| - 1);
        assert FollowsAt(c, files, i);
        assert Belongs(c, account, user, files[i - 1]) && Belongs(c, account, user, files[i]);
        SameTimes(c, account, user, files[i - 1], files[i], files[0], files[|files| - 1]);
      }
    }
  }

  lemma TurnsFollow(c: Claims, account: string, user: Option<string>, a: Auth, b: Auth)
    requires Belongs(c, account, user, b)
    ensures Turns(c, a, b) ==> Follows(c, a, b)
  {
  }

  /** Between two files with the same tokens there is no room for a later issuance. */
  lemma SameTimes(c: Claims, account: string, user: Option<string>, a: Auth, b: Auth, first: Auth, last: Auth)
    requires Belongs(c, account, user, a) && Belongs(c, account, user, b) && Follows(c, a, b)
    requires first.login.access == last.login.access && IssuedAt(c, first) <= IssuedAt(c, a) && IssuedAt(c, b) <= IssuedAt(c, last)
    ensures Turns(c, a, b)
  {
  }

  /** Two logins of one workspace, issued in the same second and written in turn. */
  lemma PairCanReturn(c: Claims, a: Auth, b: Auth, account: string, user: Option<string>, t1: int, t2: int, t3: int)
    requires Belongs(c, account, user, a) && Belongs(c, account, user, b) && OtherTokens(a, b) && SameIssue(c, a, b)
    ensures var files := [a.(lastRefreshMs := Some(t1)), b.(lastRefreshMs := Some(t2)), a.(lastRefreshMs := Some(t3))];
      Chain(c, Some(account), user, InTurn(files)) <==> t1 < t2 < t3
  {
    var files := [a.(lastRefreshMs := Some(t1)), b.(lastRefreshMs := Some(t2)), a.(lastRefreshMs := Some(t3))];
    ReturnsIff(c, account, user, files);
    hide Chain, InTurn, Belongs;
    assert TurnsAt(c, files, 1) <==> t1 < t2;
    assert TurnsAt(c, files, 2) <==> t2 < t3;
  }

  /** Such logins exist, so a pair does return. */
  lemma PairReturns()
    ensures var c := Claims(_ => Some(1000), _ => None);
      var a := Auth(Login("A", "ra", Some("w"), None, false, None), None, Some(1));
      var b := Auth(Login("B", "rb", Some("w"), None, false, None), None, Some(2));
      Chain(c, Some("w"), None, InTurn([a, b, a.(lastRefreshMs := Some(3))]))
  {
    hide Chain, InTurn;
    var c := Claims(_ => Some(1000), _ => None);
    var a := Auth(Login("A", "ra", Some("w"), None, false, None), None, Some(1));
    var b := Auth(Login("B", "rb", Some("w"), None, false, None), None, Some(2));
    PairCanReturn(c, a, b, "w", None, 1, 2, 3);
    assert a.(lastRefreshMs := Some(1)) == a && b.(lastRefreshMs := Some(2)) == b;
  }

  /** With a rejection an equal timestamp is enough, so there is no strict order to rely on. */
  lemma RejectionCanRepeatStamp(c: Claims)
    requires c.iatMs("A") == Some(1000) && c.iatMs("B") == Some(1000) && c.account("A") == None && c.account("B") == None
    ensures var a := Login("A", "ra", Some("w"), None, false, None);
      var b := Login("B", "rb", Some("w"), None, false, None);
      var chain := [Adoption(Auth(a, None, Some(1)), None, false), Adoption(Auth(b, None, Some(1)), Some(1), true)];
      Chain(c, Some("w"), None, chain) && !Before(c, chain[0], chain[1])
  {
  }
}
