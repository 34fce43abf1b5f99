/** Which stored record an account identity names (`src/identity.rs`, `same_identity` and `resolve`). */
module Identity {
  import opened Options

  datatype Provider = Anthropic | Codex

  /** The identity fields of a record. */
  datatype Account = Account(provider: Provider, name: string, accountUuid: Option<string>,
                             orgUuid: Option<string>, orgName: Option<string>)

  function Known(s: Option<string>): Option<string> { if s == Some("") then None else s }

  function OrgKey(a: Account): Option<string> {
    if Known(a.orgUuid).Some? then Known(a.orgUuid) else Known(a.orgName)
  }

  function UuidKey(a: Account): Option<string> { Known(a.accountUuid) }

  /** Same provider, same person, and no known difference of organization; by name when a uuid is
      missing. */
  predicate SameIdentity(a: Account, b: Account) {
    && a.provider == b.provider
    && if UuidKey(a).Some? && UuidKey(b).Some? then
         UuidKey(a) == UuidKey(b) && (OrgKey(a).Some? && OrgKey(b).Some? ==> OrgKey(a) == OrgKey(b))
       else a.name == b.name
  }

  predicate SameIdentityStrict(a: Account, b: Account) {
    SameIdentity(a, b) && UuidKey(a).Some? && UuidKey(a) == UuidKey(b) && OrgKey(a) == OrgKey(b)
  }

  // ----- The two comparisons, field by field -----

  /** A text that is there and not empty. */
  predicate IsKnown(s: Option<string>) { s.Some? && s.value != "" }

  /** The record's organization is `x`: by its uuid, or by its name while it has no uuid. */
  predicate NamesOrg(a: Account, x: string) {
    x != "" && (a.orgUuid == Some(x) || (!IsKnown(a.orgUuid) && a.orgName == Some(x)))
  }

  /** Loosely, an organization that one side does not name is no difference; strictly both sides have a uuid
      and name the same organization or none. */
  lemma SameIdentityIff(a: Account, b: Account)
    ensures a.provider != b.provider ==> !SameIdentity(a, b)
    ensures a.provider == b.provider && IsKnown(a.accountUuid) && IsKnown(b.accountUuid) ==>
      (SameIdentity(a, b) <==> a.accountUuid == b.accountUuid && forall x, y :: NamesOrg(a, x) && NamesOrg(b, y) ==> x == y)
    ensures a.provider == b.provider && !(IsKnown(a.accountUuid) && IsKnown(b.accountUuid)) ==>
      (SameIdentity(a, b) <==> a.name == b.name)
    ensures SameIdentityStrict(a, b) <==>
      && a.provider == b.provider && IsKnown(a.accountUuid) && a.accountUuid == b.accountUuid
      && forall x :: NamesOrg(a, x) <==> NamesOrg(b, x)
  {
    OrgIff(a);
    OrgIff(b);
    hide OrgKey, NamesOrg;
    if OrgKey(a).Some? { assert NamesOrg(a, OrgKey(a).value); }
    if OrgKey(b).Some? { assert NamesOrg(b, OrgKey(b).value); }
  }

  lemma OrgIff(a: Account)
    ensures forall x :: OrgKey(a) == Some(x) <==> NamesOrg(a, x)
  {
  }

  /** Which side is asked about does not matter. */
  lemma SameIdentitySymmetric(a: Account, b: Account)
    ensures SameIdentity(a, b) <==> SameIdentity(b, a)
    ensures SameIdentityStrict(a, b) <==> SameIdentityStrict(b, a)
  {
  }

  datatype Resolved = One(index: nat) | Nobody | Many

  /** The positions before `k` at which the record matches the target. */
  function Matches(cs: seq<Account>, target: Account, strict: bool, k: nat): seq<nat>
    requires k <= |cs|
  {
    if k == 0 then []
    else
      var before := Matches(cs, target, strict, k - 1);
      if IsMatch(cs, target, strict, k - 1) then before + [k - 1] else before
  }

  predicate IsMatch(cs: seq<Account>, target: Account, strict: bool, i: nat)
    requires i < |cs|
  {
    if strict then SameIdentityStrict(target, cs[i]) else SameIdentity(target, cs[i])
  }

  function Verdict(loose: seq<nat>, exact: seq<nat>): Resolved {
    if |loose| == 0 then Nobody
    else if |loose| == 1 then One(loose[0])
    else if |exact| == 1 then One(exact[0])
    else Many
  }

  function Resolve(cs: seq<Account>, target: Account): Resolved {
    Verdict(Matches(cs, target, false, |cs|), Matches(cs, target, true, |cs|))
  }

  /** The scan that collects both lists. */
  method ResolveScan(cs: seq<Account>, target: Account) returns (r: Resolved)
    ensures r == Resolve(cs, target)
  {
    var loose: seq<nat>, exact: seq<nat> := [], [];
    for i := 0 to |cs|
      invariant loose == Matches(cs, target, false, i) && exact == Matches(cs, target, true, i)
    {
      if SameIdentity(target, cs[i]) {
        loose := loose + [i];
        if SameIdentityStrict(target, cs[i]) { exact := exact + [i]; }
      }
    }
    r := Verdict(loose, exact);
  }

  // ----- What a verdict means -----

  /** Exactly one record matches, and it is the one at `i`. */
  ghost predicate OnlyAt(cs: seq<Account>, target: Account, strict: bool, i: nat) {
    i < |cs| && IsMatch(cs, target, strict, i) && forall j: nat :: j < |cs| && IsMatch(cs, target, strict, j) ==> j == i
  }

  lemma {:induction false} MatchesAre(cs: seq<Account>, target: Account, strict: bool, k: nat)
    requires k <= |cs|
    ensures forall i: nat :: i < k ==> (IsMatch(cs, target, strict, i) <==> i in Matches(cs, target, strict, k))
    ensures forall x :: x in Matches(cs, target, strict, k) ==> x < k
    ensures forall x, y :: 0 <= x < y < |Matches(cs, target, strict, k)| ==>
      Matches(cs, target, strict, k)[x] < Matches(cs, target, strict, k)[y]
  {
    hide IsMatch;
    if k > 0 {
      MatchesAre(cs, target, strict, k - 1);
      var before, all := Matches(cs, target, strict, k - 1), Matches(cs, target, strict, k);
      if IsMatch(cs, target, strict, k - 1) {
        assert all == before + [k - 1] && forall x :: x in all <==> x in before || x == k - 1;
        assert forall x :: 0 <= x < |before| ==> before[x] in before;
      }
    }
  }

  lemma TwoDiffer(ms: seq<nat>)
    requires forall x, y :: 0 <= x < y < |ms| ==> ms[x] < ms[y]
    ensures |ms| > 1 ==> ms[0] in ms && ms[1] in ms && ms[0] != ms[1]
  {
  }

  lemma Singleton(ms: seq<nat>, i: nat)
    requires i in ms && (forall x :: x in ms ==> x == i) && forall x, y :: 0 <= x < y < |ms| ==> ms[x] < ms[y]
    ensures ms == [i]
  {
    assert forall x :: 0 <= x < |ms| ==> ms[x] in ms;
    TwoDiffer(ms);
  }

  /** One match in the list is one match among the records. */
  lemma OneMatch(cs: seq<Account>, target: Account, strict: bool)
    ensures var ms := Matches(cs, target, strict, |cs|);
      && (|ms| == 1 ==> OnlyAt(cs, target, strict, ms[0]))
      && forall i: nat :: OnlyAt(cs, target, strict, i) ==> ms == [i]
  {
    hide IsMatch;
    var ms := Matches(cs, target, strict, |cs|);
    MatchesAre(cs, target, strict, |cs|);
    if |ms| == 1 { assert ms[0] in ms && forall x :: x in ms ==> x == ms[0]; }
    forall i: nat | OnlyAt(cs, target, strict, i) ensures ms == [i] {
      Singleton(ms, i);
    }
  }

  /** A strict match is a loose one, so a record resolves exactly when it is the only loose match or
      the only strict one; and nobody is found exactly when nothing matches. */
  lemma ResolveMeans(cs: seq<Account>, target: Account)
    ensures forall i: nat :: Resolve(cs, target) == One(i) <==>
      OnlyAt(cs, target, false, i) || OnlyAt(cs, target, true, i)
    ensures Resolve(cs, target).Nobody? <==> forall i: nat :: i < |cs| ==> !SameIdentity(target, cs[i])
  {
    OneMatch(cs, target, false);
    OneMatch(cs, target, true);
    MatchesAre(cs, target, false, |cs|);
    MatchesAre(cs, target, true, |cs|);
    var loose, exact := Matches(cs, target, false, |cs|), Matches(cs, target, true, |cs|);
    hide SameIdentity, SameIdentityStrict, OnlyAt, Matches;
    StrictIsLoose(cs, target);
    forall i: nat ensures Resolve(cs, target) == One(i) <==> OnlyAt(cs, target, false, i) || OnlyAt(cs, target, true, i) {
      if OnlyAt(cs, target, true, i) {
        assert i in exact;
        assert i in loose;
      }
    }
    if |loose| > 0 { assert loose[0] in loose && IsMatch(cs, target, false, loose[0]); }
    assert forall i: nat :: i < |cs| ==> (SameIdentity(target, cs[i]) <==> IsMatch(cs, target, false, i));
  }

  lemma StrictIsLoose(cs: seq<Account>, target: Account)
    ensures forall i: nat :: i < |cs| && IsMatch(cs, target, true, i) ==> IsMatch(cs, target, false, i)
  {
  }

  /** A record's own identity resolves to that record or is refused; never to another record. */
  lemma OwnIdentity(cs: seq<Account>, i: nat)
    requires i < |cs|
    ensures Resolve(cs, cs[i]) == One(i) || Resolve(cs, cs[i]).Many?
  {
    ResolveMeans(cs, cs[i]);
    var r := Resolve(cs, cs[i]);
    assert IsMatch(cs, cs[i], false, i);
    if r.One? && OnlyAt(cs, cs[i], true, r.index) {
      assert IsMatch(cs, cs[i], true, r.index);
      assert IsMatch(cs, cs[i], true, i);
    }
  }

  /** Whoever an identity resolves to is of its provider and has its uuid where both have one, and else its
      name; with both uuids known, organizations named by uuid on both sides are the same. */
  lemma ResolvesWithinProvider(cs: seq<Account>, target: Account, i: nat)
    requires Resolve(cs, target) == One(i)
    ensures i < |cs| && cs[i].provider == target.provider
    ensures if IsKnown(cs[i].accountUuid) && IsKnown(target.accountUuid) then cs[i].accountUuid == target.accountUuid
            else cs[i].name == target.name
    ensures IsKnown(cs[i].accountUuid) && IsKnown(target.accountUuid) && IsKnown(cs[i].orgUuid) && IsKnown(target.orgUuid) ==>
            cs[i].orgUuid == target.orgUuid
  {
    ResolveMeans(cs, target);
  }

  // ----- What cannot be resolved -----

  /** No record is the target's. */
  predicate IsUnmatched(cs: seq<Account>, target: Account) { forall i :: 0 <= i < |cs| ==> !SameIdentity(target, cs[i]) }

  /** Several records are, and not exactly one of them strictly. */
  predicate IsTied(cs: seq<Account>, target: Account) {
    && (exists i, j :: 0 <= i < j < |cs| && SameIdentity(target, cs[i]) && SameIdentity(target, cs[j]))
    && ((forall i :: 0 <= i < |cs| ==> !SameIdentityStrict(target, cs[i]))
        || exists i, j :: 0 <= i < j < |cs| && SameIdentityStrict(target, cs[i]) && SameIdentityStrict(target, cs[j]))
  }

  lemma UnresolvedIff(cs: seq<Account>, target: Account)
    ensures Resolve(cs, target).Nobody? <==> IsUnmatched(cs, target)
    ensures Resolve(cs, target).Many? <==> IsTied(cs, target)
  {
    hide SameIdentity, SameIdentityStrict, Resolve;
    ResolveMeans(cs, target);
    if IsTied(cs, target) { TiedIsNotOne(cs, target); }
    if Resolve(cs, target).Many? {
      var i :| 0 <= i < |cs| && SameIdentity(target, cs[i]);
      TwoMatch(cs, target, false, i);
      if j :| 0 <= j < |cs| && SameIdentityStrict(target, cs[j]) { TwoMatch(cs, target, true, j); }
    }
  }

  lemma TiedIsNotOne(cs: seq<Account>, target: Account)
    requires IsTied(cs, target)
    ensures forall k: nat :: !OnlyAt(cs, target, false, k) && !OnlyAt(cs, target, true, k)
  {
    hide SameIdentity, SameIdentityStrict;
    var i, j :| 0 <= i < j < |cs| && SameIdentity(target, cs[i]) && SameIdentity(target, cs[j]);
    assert IsMatch(cs, target, false, i) && IsMatch(cs, target, false, j);
    if a, b :| 0 <= a < b < |cs| && SameIdentityStrict(target, cs[a]) && SameIdentityStrict(target, cs[b]) {
      assert IsMatch(cs, target, true, a) && IsMatch(cs, target, true, b);
    }
  }

  /** A match that is not the only one has another beside it. */
  lemma TwoMatch(cs: seq<Account>, target: Account, strict: bool, i: nat)
    requires i < |cs| && IsMatch(cs, target, strict, i) && !OnlyAt(cs, target, strict, i)
    ensures exists a, b :: 0 <= a < b < |cs| && IsMatch(cs, target, strict, a) && IsMatch(cs, target, strict, b)
  {
    hide IsMatch;
    var j: nat :| j < |cs| && IsMatch(cs, target, strict, j) && j != i;
    if i < j {
      assert IsMatch(cs, target, strict, i) && IsMatch(cs, target, strict, j);
    } else {
      assert IsMatch(cs, target, strict, j) && IsMatch(cs, target, strict, i);
    }
  }

  // ----- Reordering -----

  /** `to` moves the record at `i` to `to[i]`. */
  ghost predicate Reorders(cs: seq<Account>, to: seq<nat>, cs': seq<Account>) {
    && |to| == |cs| == |cs'|
    && (forall i :: 0 <= i < |cs| ==> to[i] < |cs'| && cs'[to[i]] == cs[i])
    && (forall k :: 0 <= k < |cs'| ==> k in to)
    && (forall i, j :: 0 <= i < j < |to| ==> to[i] != to[j])
  }

  function Moved(r: Resolved, to: seq<nat>): Resolved
  {
    if r.One? && r.index < |to| then One(to[r.index]) else r
  }

  lemma OnlyAtMoves(cs: seq<Account>, to: seq<nat>, cs': seq<Account>, target: Account, strict: bool, i: nat)
    requires Reorders(cs, to, cs') && i < |cs|
    ensures OnlyAt(cs, target, strict, i) <==> OnlyAt(cs', target, strict, to[i])
  {
    assert forall j :: 0 <= j < |cs| ==> (IsMatch(cs, target, strict, j) <==> IsMatch(cs', target, strict, to[j]));
    hide IsMatch;
    if OnlyAt(cs, target, strict, i) {
      forall k: nat | k < |cs'| && IsMatch(cs', target, strict, k) ensures k == to[i] {
        assert k in to;
        var j :| 0 <= j < |to| && to[j] == k;
      }
    }
  }

  lemma NobodyMoves(cs: seq<Account>, to: seq<nat>, cs': seq<Account>, target: Account)
    requires Reorders(cs, to, cs')
    ensures (forall i: nat :: i < |cs| ==> !SameIdentity(target, cs[i])) <==> (forall k: nat :: k < |cs'| ==> !SameIdentity(target, cs'[k]))
  {
    hide SameIdentity;
    if forall i: nat :: i < |cs| ==> !SameIdentity(target, cs[i]) {
      forall k: nat | k < |cs'| ensures !SameIdentity(target, cs'[k]) {
        assert k in to;
        var j :| 0 <= j < |to| && to[j] == k;
        assert !SameIdentity(target, cs[j]);
      }
    } else {
      var i: nat :| i < |cs| && SameIdentity(target, cs[i]);
      assert SameIdentity(target, cs'[to[i]]);
    }
  }

  /** Resolving follows the record to its new position. */
  lemma ResolveMoves(cs: seq<Account>, to: seq<nat>, cs': seq<Account>, target: Account)
    requires Reorders(cs, to, cs')
    ensures Resolve(cs', target) == Moved(Resolve(cs, target), to)
  {
    ResolveMeans(cs, target);
    ResolveMeans(cs', target);
    NobodyMoves(cs, to, cs', target);
    var r, r' := Resolve(cs, target), Resolve(cs', target);
    hide Resolve, SameIdentity;
    if r.One? {
      assert r.index < |cs|;
      OnlyAtMoves(cs, to, cs', target, false, r.index);
      OnlyAtMoves(cs, to, cs', target, true, r.index);
    } else if r'.One? {
      assert r'.index < |cs'|;
      assert r'.index in to;
      var j :| 0 <= j < |to| && to[j] == r'.index;
      OnlyAtMoves(cs, to, cs', target, false, j);
      OnlyAtMoves(cs, to, cs', target, true, j);
    }
  }

  /** After any reordering a record's identity names that record, at its new position, or is refused. */
  lemma OwnIdentityMoves(cs: seq<Account>, to: seq<nat>, cs': seq<Account>, i: nat)
    requires Reorders(cs, to, cs') && i < |cs|
    ensures Resolve(cs', cs[i]) == One(to[i]) || Resolve(cs', cs[i]).Many?
  {
    OwnIdentity(cs, i);
    ResolveMoves(cs, to, cs', cs[i]);
  }

  /** `i64::saturating_sub`. */
  function SaturatingSub(a: int, b: int): int {
    if a - b > 0x7FFF_FFFF_FFFF_FFFF then 0x7FFF_FFFF_FFFF_FFFF
    else if a - b < -0x8000_0000_0000_0000 then -0x8000_0000_0000_0000
    else a - b
  }

  /** It is the difference where 64 bits hold it, and else the end of the range that is nearest to it. */
  lemma SaturatesToNearest(a: int, b: int, x: int)
    requires -9223372036854775808 <= x <= 9223372036854775807
    ensures var r := SaturatingSub(a, b);
      && -9223372036854775808 <= r <= 9223372036854775807
      && (a - b <= x ==> r <= x) && (x <= a - b ==> x <= r)
  {
  }
}
