/** The bound-token file (`src/bound_tokens.rs`): the snapshot a flush builds, the capped, sorted and
    renumbered form that is written, and what a load makes of it. */
module BoundTokens {
  import opened Sequences
  import opened Options
  import opened Sorting
  import opened Identity

  datatype Kind = ServerToolUse | ThinkingSignature | RedactedThinking | MessageId

  /** A token with its account: by slot in a snapshot and in the file, in full in the reference. */
  datatype Entry<A> = Entry(hash: string, kind: Kind, account: A, ms: int)

  type Token = Entry<nat>
  type Record = Entry<Account>

  const CAP := 65536

  // ----- Orders -----

  predicate LexLeq(a: string, b: string) {
    a == "" || (b != "" && (a[0] < b[0] || (a[0] == b[0] && LexLeq(a[1..], b[1..]))))
  }

  predicate HashLeq<A>(a: Entry<A>, b: Entry<A>) { LexLeq(a.hash, b.hash) }

  predicate NewerFirst<A>(a: Entry<A>, b: Entry<A>) { a.ms >= b.ms }

  lemma {:induction false} LexTotal(a: string, b: string)
    ensures LexLeq(a, b) || LexLeq(b, a)
    ensures LexLeq(a, b) && LexLeq(b, a) ==> a == b
  {
    if a != "" && b != "" {
      LexTotal(a[1..], b[1..]);
      assert a == a[..1] + a[1..] && b == b[..1] + b[1..];
    }
  }

  lemma {:induction false} LexTransitive(a: string, b: string, c: string)
    requires LexLeq(a, b) && LexLeq(b, c)
    ensures LexLeq(a, c)
  {
    if a != "" && a[0] == b[0] == c[0] { LexTransitive(a[1..], b[1..], c[1..]); }
  }

  lemma HashIsPreorder()
    ensures TotalPreorder<Record>(HashLeq<Account>)
  {
    forall a: Record, b: Record ensures HashLeq(a, b) || HashLeq(b, a) { LexTotal(a.hash, b.hash); }
    forall a: Record, b: Record, c: Record | HashLeq(a, b) && HashLeq(b, c) ensures HashLeq(a, c) {
      LexTransitive(a.hash, b.hash, c.hash);
    }
  }

  // ----- The snapshot -----

  predicate Distinct<T(==)>(s: seq<T>) { forall i, j :: 0 <= i < j < |s| ==> s[i] != s[j] }

  predicate InRange(tokens: seq<Token>, n: nat) { forall i :: 0 <= i < |tokens| ==> tokens[i].account < n }

  /** Where an account stands in a list, as `position` finds it. */
  function Position(accounts: seq<Account>, a: Account): (r: Option<nat>)
    ensures r.Some? <==> a in accounts
    ensures r.Some? ==> r.value < |accounts| && accounts[r.value] == a && a !in accounts[..r.value]
  {
    if |accounts| == 0 then None
    else if accounts[0] == a then Some(0)
    else
      var r := Position(accounts[1..], a);
      assert accounts == [accounts[0]] + accounts[1..];
      if r.None? then None else
        assert accounts[..r.value + 1] == [accounts[0]] + accounts[1..][..r.value];
        Some(r.value + 1)
  }

  /** The token's account written out. */
  function Named(accounts: seq<Account>, t: Token): Record
    requires t.account < |accounts|
  {
    Entry(t.hash, t.kind, accounts[t.account], t.ms)
  }

  function RecordsOf(accounts: seq<Account>, tokens: seq<Token>): seq<Record>
    requires InRange(tokens, |accounts|)
  {
    seq(|tokens|, i requires 0 <= i < |tokens| => Named(accounts, tokens[i]))
  }

  class Snapshot {
    var accounts: seq<Account>
    var tokens: seq<Token>

    ghost predicate Valid()
      reads this
    {
      Distinct(accounts) && InRange(tokens, |accounts|)
    }

    ghost function Records(): seq<Record>
      reads this
      requires Valid()
    {
      RecordsOf(accounts, tokens)
    }

    constructor ()
      ensures Valid() && Records() == [] && accounts == []
    {
      accounts, tokens := [], [];
    }

    /** The slot of an account, added on first sight; equal identities share one. */
    method AccountSlot(account: Account) returns (slot: nat)
      requires Valid()
      modifies this
      ensures Valid() && slot < |accounts| && accounts[slot] == account
      ensures Records() == old(Records())
      ensures old(accounts) <= accounts && |accounts| <= |old(accounts)| + 1
      ensures account in old(accounts) ==> accounts == old(accounts)
    {
      var found := Position(accounts, account);
      if found.Some? { return found.value; }
      accounts := accounts + [account];
      assert RecordsOf(accounts, tokens) == old(RecordsOf(accounts, tokens));
      slot := |accounts| - 1;
    }

    /** One token, minted on the account at a slot this snapshot gave out. */
    method Push(hash: string, kind: Kind, slot: nat, ms: int)
      requires Valid() && slot < |accounts|
      modifies this
      ensures Valid() && accounts == old(accounts)
      ensures Records() == old(Records()) + [Entry(hash, kind, accounts[slot], ms)]
    {
      tokens := tokens + [Entry(hash, kind, slot, ms)];
      assert RecordsOf(accounts, tokens) == old(RecordsOf(accounts, tokens)) + [Entry(hash, kind, accounts[slot], ms)];
    }
  }

  // ----- The reference: copying records -----

  /** The newest at the cap, in hash order. */
  function Kept<A>(s: seq<Entry<A>>): seq<Entry<A>> {
    Sort(if |s| > CAP then Newest(s) else s, HashLeq<A>)
  }

  function Newest<A>(s: seq<Entry<A>>): seq<Entry<A>>
    requires |s| > CAP
  {
    SortPermutes(s, NewerFirst<A>);
    Sort(s, NewerFirst<A>)[..CAP]
  }

  datatype Prepared = Prepared(accounts: seq<Account>, tokens: seq<Token>)

  /** One more record: its account is looked up in the table built so far. */
  function Add(p: Prepared, r: Record): Prepared {
    var at := Position(p.accounts, r.account);
    if at.Some? then Prepared(p.accounts, p.tokens + [Entry(r.hash, r.kind, at.value, r.ms)])
    else Prepared(p.accounts + [r.account], p.tokens + [Entry(r.hash, r.kind, |p.accounts|, r.ms)])
  }

  function Refer(rs: seq<Record>, k: nat): Prepared
    requires k <= |rs|
  {
    if k == 0 then Prepared([], []) else Add(Refer(rs, k - 1), rs[k - 1])
  }

  function Reference(rs: seq<Record>): Prepared { Refer(Kept(rs), |Kept(rs)|) }

  lemma MoreAccounts(accounts: seq<Account>, a: Account, tokens: seq<Token>)
    requires InRange(tokens, |accounts|)
    ensures InRange(tokens, |accounts + [a]|) && RecordsOf(accounts + [a], tokens) == RecordsOf(accounts, tokens)
  {
  }

  lemma MoreTokens(accounts: seq<Account>, tokens: seq<Token>, t: Token)
    requires InRange(tokens, |accounts|) && t.account < |accounts|
    ensures InRange(tokens + [t], |accounts|)
    ensures RecordsOf(accounts, tokens + [t]) == RecordsOf(accounts, tokens) + [Named(accounts, t)]
  {
  }

  predicate Sound(p: Prepared) { Distinct(p.accounts) && InRange(p.tokens, |p.accounts|) }

  lemma AddKeeps(p: Prepared, r: Record)
    requires Sound(p)
    ensures Sound(Add(p, r)) && RecordsOf(Add(p, r).accounts, Add(p, r).tokens) == RecordsOf(p.accounts, p.tokens) + [r]
  {
    hide RecordsOf, Position;
    var at := Position(p.accounts, r.account);
    if at.Some? {
      MoreTokens(p.accounts, p.tokens, Entry(r.hash, r.kind, at.value, r.ms));
    } else {
      MoreAccounts(p.accounts, r.account, p.tokens);
      MoreTokens(p.accounts + [r.account], p.tokens, Entry(r.hash, r.kind, |p.accounts|, r.ms));
    }
  }

  /** Every record is in the file under its own account, and the table lists no account twice. */
  lemma {:induction false} ReferKeepsIdentity(rs: seq<Record>, k: nat)
    requires k <= |rs|
    ensures Sound(Refer(rs, k)) && RecordsOf(Refer(rs, k).accounts, Refer(rs, k).tokens) == rs[..k]
  {
    hide Add, Sound;
    if k > 0 {
      ReferKeepsIdentity(rs, k - 1);
      AddKeeps(Refer(rs, k - 1), rs[k - 1]);
      assert rs[..k] == rs[..k - 1] + [rs[k - 1]];
    } else {
      NothingKept();
    }
  }

  lemma NothingKept()
    ensures Sound(Prepared([], [])) && RecordsOf([], []) == []
  {
  }

  /** The first use of the account at `slot` comes after the first uses of those before it. */
  predicate FirstUse(rs: seq<Record>, table: seq<Account>, slot: nat, i: nat)
    requires slot < |table| && i < |rs|
  {
    rs[i].account == table[slot] && forall j :: 0 <= j < i ==> rs[j].account in table[..slot]
  }

  /** The table is in the order of first use and lists only what is used. */
  lemma {:induction false} FirstUseOrder(rs: seq<Record>, k: nat, slot: nat)
    requires k <= |rs| && slot < |Refer(rs, k).accounts|
    ensures exists i :: 0 <= i < k && FirstUse(rs, Refer(rs, k).accounts, slot, i)
  {
    hide Add, FirstUse;
    var p, a := Refer(rs, k - 1).accounts, rs[k - 1].account;
    AddGrows(Refer(rs, k - 1), rs[k - 1]);
    if slot < |p| {
      FirstUseOrder(rs, k - 1, slot);
      var i :| 0 <= i < k - 1 && FirstUse(rs, p, slot, i);
      FirstUseStays(rs, p, a, slot, i);
    } else {
      forall j | 0 <= j < k - 1 ensures rs[j].account in p { UsedIsListed(rs, k - 1, j); }
      FirstUseNow(rs, p, k - 1);
    }
  }

  lemma FirstUseStays(rs: seq<Record>, p: seq<Account>, a: Account, slot: nat, i: nat)
    requires slot < |p| && i < |rs| && FirstUse(rs, p, slot, i)
    ensures FirstUse(rs, p + [a], slot, i)
  {
    assert (p + [a])[..slot] == p[..slot];
  }

  lemma FirstUseNow(rs: seq<Record>, p: seq<Account>, i: nat)
    requires i < |rs| && forall j :: 0 <= j < i ==> rs[j].account in p
    ensures FirstUse(rs, p + [rs[i].account], |p|, i)
  {
    assert (p + [rs[i].account])[..|p|] == p;
  }

  lemma AddGrows(p: Prepared, r: Record)
    ensures var q := Add(p, r); q.accounts == p.accounts || q.accounts == p.accounts + [r.account]
    ensures r.account in Add(p, r).accounts && forall x :: x in p.accounts ==> x in Add(p, r).accounts
  {
    hide Position;
  }

  lemma {:induction false} UsedIsListed(rs: seq<Record>, k: nat, j: nat)
    requires j < k <= |rs|
    ensures rs[j].account in Refer(rs, k).accounts
  {
    hide Add, Refer;
    ReferStep(rs, k);
    AddGrows(Refer(rs, k - 1), rs[k - 1]);
    if j < k - 1 { UsedIsListed(rs, k - 1, j); }
  }

  lemma ReferStep(rs: seq<Record>, k: nat)
    requires 0 < k <= |rs|
    ensures Refer(rs, k) == Add(Refer(rs, k - 1), rs[k - 1])
  {
  }

  // ----- Build order does not matter -----

  /** At most the cap, or no two records minted at the same time on either side of it. */
  ghost predicate NoTieAtCap(rs: seq<Record>) {
    |rs| > CAP ==> |Sort(rs, NewerFirst<Account>)| == |rs| &&
                   Sort(rs, NewerFirst<Account>)[CAP - 1].ms > Sort(rs, NewerFirst<Account>)[CAP].ms
  }

  predicate DistinctHashes(rs: seq<Record>) { forall i, j :: 0 <= i < j < |rs| ==> rs[i].hash != rs[j].hash }

  lemma NewerIsPreorder()
    ensures TotalPreorder<Record>(NewerFirst<Account>)
  {
  }

  lemma SameNewest(a: seq<Record>, b: seq<Record>)
    requires multiset(a) == multiset(b) && |a| > CAP && |b| > CAP && NoTieAtCap(a)
    ensures multiset(Newest(a)) == multiset(Newest(b))
  {
    var leq := NewerFirst<Account>;
    NewerIsPreorder();
    SortPermutes(a, leq);
    SortPermutes(b, leq);
    SortSorts(a, leq);
    SortSorts(b, leq);
    var s, t := Sort(a, leq), Sort(b, leq);
    hide Sort;
    TieGivesCut(s);
    SameFront(s, t, CAP, leq);
  }

  lemma TieGivesCut(s: seq<Record>)
    requires |s| > CAP && Sorted(s, NewerFirst<Account>) && s[CAP - 1].ms > s[CAP].ms
    ensures CleanCut(s, CAP, NewerFirst<Account>)
  {
    forall i, j | 0 <= i < CAP <= j < |s| ensures !NewerFirst(s[j], s[i]) {
      assert i < CAP - 1 ==> NewerFirst(s[i], s[CAP - 1]);
      assert CAP < j ==> NewerFirst(s[CAP], s[j]);
    }
  }

  /** Hashes that differ leave only one order. */
  lemma SameOrder(a: seq<Record>, b: seq<Record>)
    requires multiset(a) == multiset(b) && DistinctHashes(Sort(b, HashLeq<Account>))
    ensures Sort(a, HashLeq<Account>) == Sort(b, HashLeq<Account>)
  {
    var leq := HashLeq<Account>;
    HashIsPreorder();
    SortPermutes(a, leq);
    SortPermutes(b, leq);
    SortSorts(a, leq);
    SortSorts(b, leq);
    var t := Sort(b, leq);
    hide Sort;
    forall i, j | 0 <= i < j < |t| ensures !leq(t[j], t[i]) {
      assert leq(t[i], t[j]);
      LexTotal(t[i].hash, t[j].hash);
    }
    StrictIsUnique(Sort(a, leq), t, leq);
  }

  /** Hashes differ in any arrangement of the records, and among any part of them. */
  lemma HashesStayDistinct(a: seq<Record>, b: seq<Record>)
    requires multiset(b) <= multiset(a) && DistinctHashes(a)
    ensures DistinctHashes(b)
  {
    PartStaysApart(a, b, (r: Record, q: Record) => r.hash == q.hash);
  }

  /** The file does not depend on the order the snapshot was built in. */
  lemma BuildOrderDoesNotMatter(a: seq<Record>, b: seq<Record>)
    requires multiset(a) == multiset(b) && DistinctHashes(a) && NoTieAtCap(a)
    ensures Reference(a) == Reference(b)
  {
    assert |a| == |multiset(a)| && |b| == |multiset(b)|;
    if |a| > CAP {
      SameNewest(a, b);
      NewestIsPart(b);
      SortPermutes(Newest(b), HashLeq<Account>);
      HashesStayDistinct(a, Sort(Newest(b), HashLeq<Account>));
      SameOrder(Newest(a), Newest(b));
    } else {
      SortPermutes(b, HashLeq<Account>);
      HashesStayDistinct(a, Sort(b, HashLeq<Account>));
      SameOrder(a, b);
    }
  }

  lemma NewestIsPart(b: seq<Record>)
    requires |b| > CAP
    ensures multiset(Newest(b)) <= multiset(b)
  {
    SortPermutes(b, NewerFirst<Account>);
    FrontAndBack(Sort(b, NewerFirst<Account>), CAP);
  }

  /** What a flush keeps: the newest, no more than 65536, each once and by strictly increasing hash. */
  lemma KeptIsNewest(rs: seq<Record>)
    requires DistinctHashes(rs)
    ensures var kept := Kept(rs);
      && |kept| == (if |rs| > 65536 then 65536 else |rs|) && multiset(kept) <= multiset(rs)
      && (forall p, q :: p in multiset(kept) && q in multiset(rs) && q !in multiset(kept) ==> p.ms >= q.ms)
      && forall i, j :: 0 <= i < j < |kept| ==> kept[i].hash != kept[j].hash && LexLeq(kept[i].hash, kept[j].hash)
  {
    KeptAreNewer(rs);
    KeptInOrder(rs);
    KeptDistinct(rs);
    hide Kept, LexLeq;
  }

  lemma KeptAreNewer(rs: seq<Record>)
    ensures var kept := Kept(rs);
      && |kept| == (if |rs| > CAP then CAP else |rs|) && multiset(kept) <= multiset(rs)
      && forall p, q :: p in multiset(kept) && q in multiset(rs) && q !in multiset(kept) ==> p.ms >= q.ms
  {
    var part := if |rs| > CAP then Newest(rs) else rs;
    SortPermutes(part, HashLeq<Account>);
    hide Newest, Sort;
    if |rs| > CAP { NewestComeFirst(rs); }
  }

  lemma NewestComeFirst(rs: seq<Record>)
    requires |rs| > CAP
    ensures |Newest(rs)| == CAP && multiset(Newest(rs)) <= multiset(rs)
    ensures forall p, q :: p in multiset(Newest(rs)) && q in multiset(rs) && q !in multiset(Newest(rs)) ==> p.ms >= q.ms
  {
    NewerIsPreorder();
    FrontComesFirst(rs, CAP, NewerFirst<Account>);
    hide Sort;
    var front := Newest(rs);
    forall p: Record, q: Record | p in multiset(front) && q in multiset(rs) && q !in multiset(front) ensures p.ms >= q.ms {
      assert NewerFirst(p, q);
    }
  }

  lemma KeptInOrder(rs: seq<Record>)
    ensures forall i, j :: 0 <= i < j < |Kept(rs)| ==> LexLeq(Kept(rs)[i].hash, Kept(rs)[j].hash)
  {
    HashIsPreorder();
    SortSorts(if |rs| > CAP then Newest(rs) else rs, HashLeq<Account>);
    var kept := Kept(rs);
    assert Sorted(kept, HashLeq<Account>);
    hide Kept, Newest, LexLeq;
    forall i, j | 0 <= i < j < |kept| ensures LexLeq(kept[i].hash, kept[j].hash) { assert HashLeq(kept[i], kept[j]); }
  }

  /** The order of hashes: the first byte that differs decides, and a beginning comes before the whole. */
  lemma {:induction false} LexByFirstDifference(a: string, b: string, k: nat)
    requires k <= |a| && k <= |b| && a[..k] == b[..k]
    ensures k == |a| ==> LexLeq(a, b)
    ensures k < |a| && k < |b| && a[k] != b[k] ==> (LexLeq(a, b) <==> a[k] < b[k])
    ensures k == |b| < |a| ==> !LexLeq(a, b)
    decreases k
  {
    if k > 0 {
      assert a[0] == a[..k][0] == b[..k][0] == b[0];
      assert a[1..][..k - 1] == a[..k][1..] && b[1..][..k - 1] == b[..k][1..];
      LexByFirstDifference(a[1..], b[1..], k - 1);
    }
  }

  // ----- Preparing a snapshot -----

  datatype Outcome = Ok(prepared: Prepared) | Err(slot: nat)

  /** A token and the record it stands for. */
  predicate Stands(accounts: seq<Account>, t: Token, r: Record) {
    t.account < |accounts| && Named(accounts, t) == r
  }

  lemma StandAgree(accounts: seq<Account>)
    ensures Agree(HashLeq<nat>, HashLeq<Account>, (t, r) => Stands(accounts, t, r))
    ensures Agree(NewerFirst<nat>, NewerFirst<Account>, (t, r) => Stands(accounts, t, r))
  {
  }

  /** Sorting and capping tokens is sorting and capping their records. */
  lemma KeptRecords(accounts: seq<Account>, tokens: seq<Token>)
    requires InRange(tokens, |accounts|)
    ensures InRange(Kept(tokens), |accounts|) && RecordsOf(accounts, Kept(tokens)) == Kept(RecordsOf(accounts, tokens))
  {
    var rel := (t: Token, r: Record) => Stands(accounts, t, r);
    var rs := RecordsOf(accounts, tokens);
    StandAgree(accounts);
    assert Related(tokens, rs, rel);
    var ts', rs' := tokens, rs;
    if |tokens| > CAP {
      SortRelated(tokens, rs, NewerFirst<nat>, NewerFirst<Account>, rel);
      ts', rs' := Newest(tokens), Newest(rs);
      SortPermutes(tokens, NewerFirst<nat>);
      SortPermutes(rs, NewerFirst<Account>);
    }
    SortRelated(ts', rs', HashLeq<nat>, HashLeq<Account>, rel);
    RelatedAreRecords(accounts, Kept(tokens), Kept(rs));
  }

  lemma RelatedAreRecords(accounts: seq<Account>, tokens: seq<Token>, rs: seq<Record>)
    requires |tokens| == |rs| && forall i :: 0 <= i < |tokens| ==> Stands(accounts, tokens[i], rs[i])
    ensures InRange(tokens, |accounts|) && RecordsOf(accounts, tokens) == rs
  {
  }

  /** The renumbering: the accounts not yet moved, where the others went, and the new table. */
  datatype Placing = Placing(unplaced: seq<Option<Account>>, placed: seq<Option<nat>>, table: seq<Account>)

  /** Every slot is either waiting or placed. */
  predicate Tracks(accounts: seq<Account>, st: Placing) {
    && |accounts| == |st.unplaced| == |st.placed|
    && forall s :: 0 <= s < |accounts| ==> st.unplaced[s] == (if st.placed[s].None? then Some(accounts[s]) else None)
  }

  /** A slot is placed exactly when its account is in the new table, and where it is there. */
  predicate Knows(accounts: seq<Account>, st: Placing) {
    Tracks(accounts, st) && forall s :: 0 <= s < |accounts| ==> st.placed[s] == Position(st.table, accounts[s])
  }

  lemma {:induction false} PositionGrows(table: seq<Account>, a: Account, b: Account)
    requires a !in table
    ensures Position(table + [a], b) == if b == a then Some(|table|) else Position(table, b)
  {
    if |table| > 0 {
      assert (table + [a])[1..] == table[1..] + [a];
      PositionGrows(table[1..], a, b);
    }
  }

  function Grown(table: seq<Account>, a: Account): seq<Account> { if a in table then table else table + [a] }

  /** Where one token's slot goes, moving its account into the table on first use. */
  method SlotFor(ghost accounts: seq<Account>, st: Placing, from: nat) returns (to: Option<nat>, next: Placing)
    requires Tracks(accounts, st)
    ensures Tracks(accounts, next) && (to.Some? <==> from < |accounts|)
    ensures Distinct(accounts) && Knows(accounts, st) && from < |accounts| ==>
      && Knows(accounts, next) && next.table == Grown(st.table, accounts[from])
      && to == Position(next.table, accounts[from])
  {
    hide Position;
    if from < |st.placed| && st.placed[from].Some? { return st.placed[from], st; }
    if from >= |st.unplaced| || st.unplaced[from].None? { return None, st; }
    var account := st.unplaced[from].value;
    var table := st.table + [account];
    to := Some(|table| - 1);
    next := Placing(st.unplaced[from := None], st.placed[from := to], table);
    if Distinct(accounts) && Knows(accounts, st) {
      forall s | 0 <= s < |accounts| ensures next.placed[s] == Position(table, accounts[s]) {
        PositionGrows(st.table, account, accounts[s]);
      }
    }
  }

  /** Adding a record, said of the table it leaves. */
  lemma AddIs(table: seq<Account>, tokens: seq<Token>, r: Record)
    ensures Position(Grown(table, r.account), r.account).Some?
    ensures Add(Prepared(table, tokens), r) ==
      Prepared(Grown(table, r.account),
               tokens + [Entry(r.hash, r.kind, Position(Grown(table, r.account), r.account).value, r.ms)])
  {
    if r.account !in table { PositionGrows(table, r.account, r.account); }
  }

  /** Renumber the tokens in place, one after another. */
  method Renumber(accounts: seq<Account>, kept: seq<Token>) returns (r: Outcome)
    ensures r.Err? ==> exists t :: t in kept && t.account == r.slot && r.slot >= |accounts|
    ensures r.Ok? ==> InRange(kept, |accounts|)
    ensures Distinct(accounts) && InRange(kept, |accounts|) ==> r == Ok(Refer(RecordsOf(accounts, kept), |kept|))
  {
    hide Position, Add, RecordsOf;
    var tokens := kept;
    var st := Placing(seq(|accounts|, i requires 0 <= i < |accounts| => Some(accounts[i])), seq(|accounts|, _ => None), []);
    NothingPlaced();
    for i := 0 to |tokens|
      invariant |tokens| == |kept| && tokens[i..] == kept[i..] && Tracks(accounts, st)
      invariant forall j :: 0 <= j < i ==> kept[j].account < |accounts|
      invariant Distinct(accounts) ==> Knows(accounts, st)
      invariant Distinct(accounts) && InRange(kept, |accounts|) ==> RecordsUpTo(accounts, kept, i) == Prepared(st.table, tokens[..i])
    {
      assert tokens[i] == tokens[i..][0] == kept[i..][0] == kept[i];
      var to, next := SlotFor(accounts, st, tokens[i].account);
      if to.None? { return Err(tokens[i].account); }
      if Distinct(accounts) && InRange(kept, |accounts|) {
        RecordsStep(accounts, kept, i, st.table, tokens[..i]);
      }
      ghost var before := tokens;
      tokens := tokens[i := tokens[i].(account := to.value)];
      UpdateAt(before, tokens, i);
      assert tokens[i + 1..] == kept[i + 1..];
      st := next;
    }
    assert tokens[..|tokens|] == tokens;
    r := Ok(Prepared(st.table, tokens));
  }

  lemma UpdateAt(before: seq<Token>, after: seq<Token>, i: nat)
    requires i < |before| == |after| && after == before[i := after[i]]
    ensures after[..i + 1] == before[..i] + [after[i]] && after[i + 1..] == before[i + 1..]
  {
  }

  lemma NothingPlaced()
    ensures forall a :: Position([], a) == None
  {
  }

  function RecordsUpTo(accounts: seq<Account>, kept: seq<Token>, i: nat): Prepared
    requires InRange(kept, |accounts|) && i <= |kept|
  {
    Refer(RecordsOf(accounts, kept), i)
  }

  lemma RecordsStep(accounts: seq<Account>, kept: seq<Token>, i: nat, table: seq<Account>, done: seq<Token>)
    requires InRange(kept, |accounts|) && i < |kept| && RecordsUpTo(accounts, kept, i) == Prepared(table, done)
    ensures var t := kept[i];
      var grown := Grown(table, accounts[t.account]);
      && Position(grown, accounts[t.account]).Some?
      && RecordsUpTo(accounts, kept, i + 1) == Prepared(grown, done + [t.(account := Position(grown, accounts[t.account]).value)])
  {
    hide Position, Add;
    AddIs(table, done, Named(accounts, kept[i]));
  }

  /** Cap, order and renumber. A snapshot built through its methods never fails, and gives exactly
      what copying every record would; only a token naming a slot that is not there is refused. */
  method Prepare(accounts: seq<Account>, given: seq<Token>) returns (r: Outcome)
    ensures r.Err? ==> exists t :: t in Kept(given) && t.account == r.slot && r.slot >= |accounts|
    ensures r.Ok? ==> InRange(Kept(given), |accounts|)
    ensures Distinct(accounts) && InRange(given, |accounts|) ==> r == Ok(Reference(RecordsOf(accounts, given)))
  {
    var tokens := given;
    if |tokens| > CAP {
      SortPermutes(tokens, NewerFirst<nat>);
      tokens := Sort(tokens, NewerFirst<nat>);
      tokens := tokens[..CAP];
    }
    tokens := Sort(tokens, HashLeq<nat>);
    assert tokens == Kept(given);
    hide Kept, Sort;
    if Distinct(accounts) && InRange(given, |accounts|) { KeptRecords(accounts, given); }
    r := Renumber(accounts, tokens);
  }

  // ----- Loading -----

  datatype Fate = Restored(index: nat) | Expired | Unresolved | Ambiguous

  datatype Report = Report(tokens: map<string, (nat, Kind, int)>, expired: nat, unresolved: nat, ambiguous: nat)

  /** What becomes of one token of the file. */
  function FateOf(file: Prepared, accounts: seq<Account>, now: int, ttl: int, t: Token): Fate {
    if SaturatingSub(now, t.ms) > ttl then Expired
    else if t.account >= |file.accounts| then Unresolved
    else FateOfIdentity(accounts, file.accounts[t.account])
  }

  function FateOfIdentity(accounts: seq<Account>, a: Account): Fate {
    match Resolve(accounts, a)
    case One(index) => Restored(index)
    case Nobody => Unresolved
    case Many => Ambiguous
  }

  function Tally(r: Report, t: Token, fate: Fate): Report {
    match fate
    case Restored(index) => r.(tokens := r.tokens[t.hash := (index, t.kind, t.ms)])
    case Expired => r.(expired := r.expired + 1)
    case Unresolved => r.(unresolved := r.unresolved + 1)
    case Ambiguous => r.(ambiguous := r.ambiguous + 1)
  }

  function LoadTo(file: Prepared, accounts: seq<Account>, now: int, ttl: int, k: nat): Report
    requires k <= |file.tokens|
  {
    if k == 0 then Report(map[], 0, 0, 0)
    else
      var t := file.tokens[k - 1];
      Tally(LoadTo(file, accounts, now, ttl, k - 1), t, FateOf(file, accounts, now, ttl, t))
  }

  /** The loop of a load: every identity of the table is resolved once, then every token is counted. */
  method Load(file: Prepared, accounts: seq<Account>, now: int, ttl: int) returns (r: Report)
    ensures r == LoadTo(file, accounts, now, ttl, |file.tokens|)
  {
    hide Resolve;
    var resolved: seq<Resolved> := [];
    for i := 0 to |file.accounts|
      invariant |resolved| == i && forall s :: 0 <= s < i ==> resolved[s] == Resolve(accounts, file.accounts[s])
    {
      var one := ResolveScan(accounts, file.accounts[i]);
      resolved := resolved + [one];
    }
    r := Report(map[], 0, 0, 0);
    for i := 0 to |file.tokens|
      invariant r == LoadTo(file, accounts, now, ttl, i)
    {
      var t := file.tokens[i];
      if SaturatingSub(now, t.ms) > ttl {
        r := r.(expired := r.expired + 1);
      } else if t.account < |resolved| && resolved[t.account].One? {
        r := r.(tokens := r.tokens[t.hash := (resolved[t.account].index, t.kind, t.ms)]);
      } else if t.account < |resolved| && resolved[t.account].Many? {
        r := r.(ambiguous := r.ambiguous + 1);
      } else {
        r := r.(unresolved := r.unresolved + 1);
      }
    }
  }

  predicate DistinctTokens(tokens: seq<Token>) { forall i, j :: 0 <= i < j < |tokens| ==> tokens[i].hash != tokens[j].hash }

  lemma {:induction false} LoadOnly(file: Prepared, accounts: seq<Account>, now: int, ttl: int, k: nat, h: string)
    requires k <= |file.tokens| && h in LoadTo(file, accounts, now, ttl, k).tokens
    ensures exists i :: 0 <= i < k && file.tokens[i].hash == h
  {
    hide FateOf;
    if h == file.tokens[k - 1].hash {
      assert file.tokens[k - 1].hash == h;
    } else {
      LoadOnly(file, accounts, now, ttl, k - 1, h);
    }
  }

  lemma LoadFresh(file: Prepared, accounts: seq<Account>, now: int, ttl: int, k: nat)
    requires k < |file.tokens| && DistinctTokens(file.tokens)
    ensures file.tokens[k].hash !in LoadTo(file, accounts, now, ttl, k).tokens
  {
    hide LoadTo;
    var h := file.tokens[k].hash;
    if h in LoadTo(file, accounts, now, ttl, k).tokens { LoadOnly(file, accounts, now, ttl, k, h); }
  }

  /** A token of the file is restored with what its fate says, or not at all. */
  lemma {:induction false} LoadRestores(file: Prepared, accounts: seq<Account>, now: int, ttl: int, k: nat, i: nat)
    requires i < k <= |file.tokens| && DistinctTokens(file.tokens)
    ensures var m, t := LoadTo(file, accounts, now, ttl, k).tokens, file.tokens[i];
      var fate := FateOf(file, accounts, now, ttl, t);
      if fate.Restored? then t.hash in m && m[t.hash] == (fate.index, t.kind, t.ms) else t.hash !in m
    decreases k
  {
    hide FateOf;
    if i < k - 1 {
      LoadRestores(file, accounts, now, ttl, k - 1, i);
      assert file.tokens[i].hash != file.tokens[k - 1].hash;
    } else {
      LoadFresh(file, accounts, now, ttl, k - 1);
    }
  }

  /** Every token is counted once. */
  lemma {:induction false} LoadCounts(file: Prepared, accounts: seq<Account>, now: int, ttl: int, k: nat)
    requires k <= |file.tokens| && DistinctTokens(file.tokens)
    ensures var r := LoadTo(file, accounts, now, ttl, k); |r.tokens| + r.expired + r.unresolved + r.ambiguous == k
  {
    hide FateOf, Tally;
    if k > 0 {
      LoadCounts(file, accounts, now, ttl, k - 1);
      LoadFresh(file, accounts, now, ttl, k - 1);
      var t := file.tokens[k - 1];
      TallyCounts(LoadTo(file, accounts, now, ttl, k - 1), t, FateOf(file, accounts, now, ttl, t));
    }
  }

  lemma TallyCounts(r: Report, t: Token, fate: Fate)
    requires t.hash !in r.tokens
    ensures var r' := Tally(r, t, fate);
      |r'.tokens| + r'.expired + r'.unresolved + r'.ambiguous == |r.tokens| + r.expired + r.unresolved + r.ambiguous + 1
  {
    if fate.Restored? {
      var v := (fate.index, t.kind, t.ms);
      assert (r.tokens[t.hash := v]).Keys == r.tokens.Keys + {t.hash};
    }
  }

  // ----- What is counted -----

  function IsOld(now: int, ttl: int): Token -> bool { (t: Token) => SaturatingSub(now, t.ms) > ttl }

  /** The file does not list the token's account, or nothing is that account any more. */
  ghost function IsLost(file: Prepared, accounts: seq<Account>, now: int, ttl: int): Token -> bool {
    (t: Token) => !IsOld(now, ttl)(t) && (t.account >= |file.accounts| || IsUnmatched(accounts, file.accounts[t.account]))
  }

  ghost function IsUnclear(file: Prepared, accounts: seq<Account>, now: int, ttl: int): Token -> bool {
    (t: Token) => !IsOld(now, ttl)(t) && t.account < |file.accounts| && IsTied(accounts, file.accounts[t.account])
  }

  /** Each counter of the report is the number of tokens of its kind. */
  lemma {:induction false} LoadTallies(file: Prepared, accounts: seq<Account>, now: int, ttl: int, k: nat)
    requires k <= |file.tokens|
    ensures var r, ts := LoadTo(file, accounts, now, ttl, k), file.tokens[..k];
      && r.expired == Count(ts, IsOld(now, ttl))
      && r.unresolved == Count(ts, IsLost(file, accounts, now, ttl))
      && r.ambiguous == Count(ts, IsUnclear(file, accounts, now, ttl))
  {
    hide FateOf, Tally, IsOld, IsLost, IsUnclear;
    if k > 0 {
      var t := file.tokens[k - 1];
      LoadTallies(file, accounts, now, ttl, k - 1);
      CountUpTo(file.tokens, k - 1, IsOld(now, ttl));
      CountUpTo(file.tokens, k - 1, IsLost(file, accounts, now, ttl));
      CountUpTo(file.tokens, k - 1, IsUnclear(file, accounts, now, ttl));
      hide Count;
      TallyKind(LoadTo(file, accounts, now, ttl, k - 1), t, file, accounts, now, ttl);
    }
  }

  lemma TallyKind(r: Report, t: Token, file: Prepared, accounts: seq<Account>, now: int, ttl: int)
    ensures var r' := Tally(r, t, FateOf(file, accounts, now, ttl, t));
      && r'.expired == r.expired + (if IsOld(now, ttl)(t) then 1 else 0)
      && r'.unresolved == r.unresolved + (if IsLost(file, accounts, now, ttl)(t) then 1 else 0)
      && r'.ambiguous == r.ambiguous + (if IsUnclear(file, accounts, now, ttl)(t) then 1 else 0)
  {
    hide Resolve, IsUnmatched, IsTied;
    if t.account < |file.accounts| { UnresolvedIff(accounts, file.accounts[t.account]); }
  }

  /** Saving and loading: a kept record that is still fresh comes back under what its identity now
      resolves to. Against a reordering of the accounts it was saved for, that is its own account's
      new position or a refusal, never another account. */
  lemma RoundTrip(rs: seq<Record>, live: seq<Account>, to: seq<nat>, accounts: seq<Account>, now: int, ttl: int, i: nat, a: nat)
    requires DistinctHashes(rs) && i < |Kept(rs)| && Reorders(live, to, accounts) && a < |live| && Kept(rs)[i].account == live[a]
    ensures var file := Reference(rs);
      var r := LoadTo(file, accounts, now, ttl, |file.tokens|);
      var kept := Kept(rs)[i];
      && |r.tokens| + r.expired + r.unresolved + r.ambiguous == |Kept(rs)|
      && (if SaturatingSub(now, kept.ms) > ttl || Resolve(accounts, live[a]).Many? then kept.hash !in r.tokens
          else kept.hash in r.tokens && r.tokens[kept.hash] == (to[a], kept.kind, kept.ms))
  {
    hide Kept, Resolve, Reorders, Refer;
    var kept, file := Kept(rs), Reference(rs);
    ReferKeepsIdentity(kept, |kept|);
    assert kept[..|kept|] == kept;
    KeptDistinct(rs);
    SameHashes(file, kept);
    LoadCounts(file, accounts, now, ttl, |file.tokens|);
    LoadRestores(file, accounts, now, ttl, |file.tokens|, i);
    OwnIdentityMoves(live, to, accounts, a);
  }

  lemma SameHashes(file: Prepared, kept: seq<Record>)
    requires Sound(file) && RecordsOf(file.accounts, file.tokens) == kept && DistinctHashes(kept)
    ensures |file.tokens| == |kept| && DistinctTokens(file.tokens)
    ensures forall i :: 0 <= i < |kept| ==> file.tokens[i].account < |file.accounts| && kept[i] == Named(file.accounts, file.tokens[i])
  {
    assert forall i :: 0 <= i < |kept| ==> kept[i].hash == file.tokens[i].hash;
  }

  lemma KeptDistinct(rs: seq<Record>)
    requires DistinctHashes(rs)
    ensures DistinctHashes(Kept(rs))
  {
    if |rs| > CAP {
      NewestIsPart(rs);
      SortPermutes(Newest(rs), HashLeq<Account>);
    } else {
      SortPermutes(rs, HashLeq<Account>);
    }
    HashesStayDistinct(rs, Kept(rs));
  }
}
