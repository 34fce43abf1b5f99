/** Session pins on disk (`src/affinity.rs`): which pins a save writes, what a load restores against
    the accounts of the next process, and carrying pins across an account rename. */
module Affinity {
  import opened Sequences
  import opened Sorting
  import opened Identity

  datatype Pin = Pin(key: nat, account: Account, touched: int, extended: bool)

  const CAP := 1024
  const EXTENDED_TTL := 55 * 60 * 1000

  // ----- Saving -----

  predicate FresherFirst(a: Pin, b: Pin) { a.touched >= b.touched }

  predicate KeyLeq(a: Pin, b: Pin) { a.key <= b.key }

  /** At most the cap, the freshest, in key order. */
  function WrittenPins(pins: seq<Pin>): seq<Pin> {
    Sort(if |pins| > CAP then Freshest(pins) else pins, KeyLeq)
  }

  function Freshest(pins: seq<Pin>): seq<Pin>
    requires |pins| > CAP
  {
    SortPermutes(pins, FresherFirst);
    Sort(pins, FresherFirst)[..CAP]
  }

  predicate DistinctKeys(pins: seq<Pin>) { forall i, j :: 0 <= i < j < |pins| ==> pins[i].key != pins[j].key }

  lemma KeysArePreorders()
    ensures TotalPreorder(KeyLeq) && TotalPreorder(FresherFirst)
  {
  }

  lemma KeysStayDistinct(a: seq<Pin>, b: seq<Pin>)
    requires multiset(b) <= multiset(a) && DistinctKeys(a)
    ensures DistinctKeys(b)
  {
    PartStaysApart(a, b, (p: Pin, q: Pin) => p.key == q.key);
  }

  /** What is written: the freshest, no more than the cap, each once and in key order; everything when
      there is room. */
  lemma WrittenIsFreshest(pins: seq<Pin>)
    requires DistinctKeys(pins)
    ensures var w := WrittenPins(pins);
      && |w| == (if |pins| > 1024 then 1024 else |pins|) && multiset(w) <= multiset(pins)
      && DistinctKeys(w) && (forall i, j :: 0 <= i < j < |w| ==> w[i].key < w[j].key)
      && forall p, q :: p in multiset(w) && q in multiset(pins) && q !in multiset(w) ==> p.touched >= q.touched
  {
    KeysArePreorders();
    var kept := if |pins| > CAP then Freshest(pins) else pins;
    FreshestIsFront(pins);
    SortPermutes(kept, KeyLeq);
    SortSorts(kept, KeyLeq);
    var w := WrittenPins(pins);
    KeysStayDistinct(pins, w);
    forall i, j | 0 <= i < j < |w| ensures w[i].key < w[j].key { assert KeyLeq(w[i], w[j]); }
  }

  lemma FreshestIsFront(pins: seq<Pin>)
    ensures |pins| > CAP ==>
      && |Freshest(pins)| == CAP && multiset(Freshest(pins)) <= multiset(pins)
      && forall p, q :: p in multiset(Freshest(pins)) && q in multiset(pins) && q !in multiset(Freshest(pins)) ==> p.touched >= q.touched
  {
    if |pins| > CAP {
      KeysArePreorders();
      FrontComesFirst(pins, CAP, FresherFirst);
    }
  }

  // ----- Loading -----

  datatype Fate = Restored(index: nat) | Expired | Unresolved | Ambiguous

  datatype Report = Report(pins: map<nat, (nat, int)>, extended: set<nat>, expired: nat, unresolved: nat, ambiguous: nat)

  function Window(p: Pin, ttl: int): int { if p.extended then EXTENDED_TTL else ttl }

  predicate IsStale(p: Pin, now: int, ttl: int) { SaturatingSub(now, p.touched) > Window(p, ttl) }

  function FateOf(accounts: seq<Account>, now: int, ttl: int, p: Pin): Fate {
    if IsStale(p, now, ttl) then Expired
    else
      match Resolve(accounts, p.account)
      case One(index) => Restored(index)
      case Nobody => Unresolved
      case Many => Ambiguous
  }

  function Tally(r: Report, p: Pin, fate: Fate): Report {
    match fate
    case Restored(index) =>
      r.(pins := r.pins[p.key := (index, p.touched)], extended := if p.extended then r.extended + {p.key} else r.extended)
    case Expired => r.(expired := r.expired + 1)
    case Unresolved => r.(unresolved := r.unresolved + 1)
    case Ambiguous => r.(ambiguous := r.ambiguous + 1)
  }

  const EMPTY := Report(map[], {}, 0, 0, 0)

  /** The report over the first `k` pins, with no cap. */
  function LoadTo(pins: seq<Pin>, accounts: seq<Account>, now: int, ttl: int, k: nat): Report
    requires k <= |pins|
  {
    if k == 0 then EMPTY
    else Tally(LoadTo(pins, accounts, now, ttl, k - 1), pins[k - 1], FateOf(accounts, now, ttl, pins[k - 1]))
  }

  lemma {:induction false} LoadSize(pins: seq<Pin>, accounts: seq<Account>, now: int, ttl: int, k: nat)
    requires k <= |pins|
    ensures |LoadTo(pins, accounts, now, ttl, k).pins| <= k
  {
    hide FateOf, Tally;
    if k > 0 {
      LoadSize(pins, accounts, now, ttl, k - 1);
      TallySize(LoadTo(pins, accounts, now, ttl, k - 1), pins[k - 1], FateOf(accounts, now, ttl, pins[k - 1]));
    }
  }

  lemma TallySize(r: Report, p: Pin, fate: Fate)
    ensures |Tally(r, p, fate).pins| <= |r.pins| + 1
  {
    if fate.Restored? { assert Tally(r, p, fate).pins.Keys == r.pins.Keys + {p.key}; }
  }

  /** The loop of a load, which stops once the cap is reached. On any file no longer than the cap,
      so on any file a save wrote, stopping skips nothing. */
  method Load(pins: seq<Pin>, accounts: seq<Account>, now: int, ttl: int) returns (r: Report)
    ensures |pins| <= CAP ==> r == LoadTo(pins, accounts, now, ttl, |pins|)
    ensures exists k: nat {:trigger LoadTo(pins, accounts, now, ttl, k)} ::
      k <= |pins| && r == LoadTo(pins, accounts, now, ttl, k) && (k < |pins| ==> |r.pins| >= CAP)
  {
    hide Resolve, LoadTo;
    r := EMPTY;
    LoadStart(pins, accounts, now, ttl);
    for i := 0 to |pins|
      invariant r == LoadTo(pins, accounts, now, ttl, i)
    {
      var p := pins[i];
      if SaturatingSub(now, p.touched) > (if p.extended then EXTENDED_TTL else ttl) {
        r := r.(expired := r.expired + 1);
        LoadStep(pins, accounts, now, ttl, i);
        continue;
      }
      var found := ResolveScan(accounts, p.account);
      match found {
        case One(index) =>
          r := r.(pins := r.pins[p.key := (index, p.touched)]);
          if p.extended { r := r.(extended := r.extended + {p.key}); }
        case Nobody => r := r.(unresolved := r.unresolved + 1);
        case Many => r := r.(ambiguous := r.ambiguous + 1);
      }
      LoadStep(pins, accounts, now, ttl, i);
      if |r.pins| >= CAP {
        LoadSize(pins, accounts, now, ttl, i + 1);
        return;
      }
    }
  }

  lemma LoadStart(pins: seq<Pin>, accounts: seq<Account>, now: int, ttl: int)
    ensures LoadTo(pins, accounts, now, ttl, 0) == EMPTY
  {
  }

  lemma LoadStep(pins: seq<Pin>, accounts: seq<Account>, now: int, ttl: int, k: nat)
    requires k < |pins|
    ensures LoadTo(pins, accounts, now, ttl, k + 1) ==
            Tally(LoadTo(pins, accounts, now, ttl, k), pins[k], FateOf(accounts, now, ttl, pins[k]))
  {
  }

  // ----- What a load restores -----

  lemma {:induction false} LoadOnly(pins: seq<Pin>, accounts: seq<Account>, now: int, ttl: int, k: nat, key: nat)
    requires k <= |pins|
    requires key in LoadTo(pins, accounts, now, ttl, k).pins || key in LoadTo(pins, accounts, now, ttl, k).extended
    ensures exists i :: 0 <= i < k && pins[i].key == key
  {
    hide FateOf;
    if key == pins[k - 1].key {
      assert pins[k - 1].key == key;
    } else {
      LoadOnly(pins, accounts, now, ttl, k - 1, key);
    }
  }

  lemma LoadFresh(pins: seq<Pin>, accounts: seq<Account>, now: int, ttl: int, k: nat)
    requires k < |pins| && DistinctKeys(pins)
    ensures var r := LoadTo(pins, accounts, now, ttl, k); pins[k].key !in r.pins && pins[k].key !in r.extended
  {
    hide LoadTo;
    var key, r := pins[k].key, LoadTo(pins, accounts, now, ttl, k);
    if key in r.pins || key in r.extended { LoadOnly(pins, accounts, now, ttl, k, key); }
  }

  /** A pin of the file is restored with what its fate says, or not at all; its extended window comes
      back with it. */
  lemma {:induction false} LoadRestores(pins: seq<Pin>, accounts: seq<Account>, now: int, ttl: int, k: nat, i: nat)
    requires i < k <= |pins| && DistinctKeys(pins)
    ensures var r, p := LoadTo(pins, accounts, now, ttl, k), pins[i];
      var fate := FateOf(accounts, now, ttl, p);
      if fate.Restored? then
        p.key in r.pins && r.pins[p.key] == (fate.index, p.touched) && (p.key in r.extended <==> p.extended)
      else p.key !in r.pins && p.key !in r.extended
    decreases k
  {
    hide FateOf;
    if i < k - 1 {
      LoadRestores(pins, accounts, now, ttl, k - 1, i);
      assert pins[i].key != pins[k - 1].key;
    } else {
      LoadFresh(pins, accounts, now, ttl, k - 1);
    }
  }

  /** Every pin is counted once. */
  lemma {:induction false} LoadCounts(pins: seq<Pin>, accounts: seq<Account>, now: int, ttl: int, k: nat)
    requires k <= |pins| && DistinctKeys(pins)
    ensures var r := LoadTo(pins, accounts, now, ttl, k); |r.pins| + r.expired + r.unresolved + r.ambiguous == k
  {
    hide FateOf, Tally;
    if k > 0 {
      LoadCounts(pins, accounts, now, ttl, k - 1);
      LoadFresh(pins, accounts, now, ttl, k - 1);
      TallyCounts(LoadTo(pins, accounts, now, ttl, k - 1), pins[k - 1], FateOf(accounts, now, ttl, pins[k - 1]));
    }
  }

  lemma TallyCounts(r: Report, p: Pin, fate: Fate)
    requires p.key !in r.pins
    ensures var r' := Tally(r, p, fate);
      |r'.pins| + r'.expired + r'.unresolved + r'.ambiguous == |r.pins| + r.expired + r.unresolved + r.ambiguous + 1
  {
    if fate.Restored? {
      var v := (fate.index, p.touched);
      assert (r.pins[p.key := v]).Keys == r.pins.Keys + {p.key};
    }
  }

  // ----- What is counted -----

  /** Untouched for longer than 55 minutes, or than the caller's limit when the wider window was not asked for. */
  function IsOld(now: int, ttl: int): Pin -> bool {
    (p: Pin) => SaturatingSub(now, p.touched) > if p.extended then 3300000 else ttl
  }

  ghost function IsLost(accounts: seq<Account>, now: int, ttl: int): Pin -> bool {
    (p: Pin) => !IsOld(now, ttl)(p) && IsUnmatched(accounts, p.account)
  }

  ghost function IsUnclear(accounts: seq<Account>, now: int, ttl: int): Pin -> bool {
    (p: Pin) => !IsOld(now, ttl)(p) && IsTied(accounts, p.account)
  }

  /** Each counter of the report is the number of pins of its kind. */
  lemma {:induction false} LoadTallies(pins: seq<Pin>, accounts: seq<Account>, now: int, ttl: int, k: nat)
    requires k <= |pins|
    ensures var r := LoadTo(pins, accounts, now, ttl, k);
      && r.expired == Count(pins[..k], IsOld(now, ttl))
      && r.unresolved == Count(pins[..k], IsLost(accounts, now, ttl))
      && r.ambiguous == Count(pins[..k], IsUnclear(accounts, now, ttl))
  {
    hide FateOf, Tally, IsOld, IsLost, IsUnclear;
    if k > 0 {
      var p := pins[k - 1];
      LoadTallies(pins, accounts, now, ttl, k - 1);
      CountUpTo(pins, k - 1, IsOld(now, ttl));
      CountUpTo(pins, k - 1, IsLost(accounts, now, ttl));
      CountUpTo(pins, k - 1, IsUnclear(accounts, now, ttl));
      hide Count;
      TallyKind(LoadTo(pins, accounts, now, ttl, k - 1), p, accounts, now, ttl);
    }
  }

  lemma TallyKind(r: Report, p: Pin, accounts: seq<Account>, now: int, ttl: int)
    ensures var r' := Tally(r, p, FateOf(accounts, now, ttl, p));
      && r'.expired == r.expired + (if IsOld(now, ttl)(p) then 1 else 0)
      && r'.unresolved == r.unresolved + (if IsLost(accounts, now, ttl)(p) then 1 else 0)
      && r'.ambiguous == r.ambiguous + (if IsUnclear(accounts, now, ttl)(p) then 1 else 0)
  {
    hide Resolve, IsUnmatched, IsTied;
    UnresolvedIff(accounts, p.account);
  }

  /** Saving and loading against any reordering of the accounts: the counts add up to what was written,
      and a kept pin of a live account that is still fresh comes back at that account's new position
      or is refused as ambiguous; it never moves to another account. */
  lemma RoundTrip(pins: seq<Pin>, live: seq<Account>, to: seq<nat>, accounts: seq<Account>, now: int, ttl: int, i: nat, a: nat)
    requires DistinctKeys(pins) && Reorders(live, to, accounts) && a < |live|
    requires i < |WrittenPins(pins)| && WrittenPins(pins)[i].account == live[a]
    ensures var w := WrittenPins(pins);
      var r, p := LoadTo(w, accounts, now, ttl, |w|), w[i];
      && |w| <= CAP && |r.pins| + r.expired + r.unresolved + r.ambiguous == |w|
      && (if IsStale(p, now, ttl) || Resolve(accounts, live[a]).Many? then p.key !in r.pins
          else p.key in r.pins && r.pins[p.key] == (to[a], p.touched) && (p.key in r.extended <==> p.extended))
  {
    hide WrittenPins, Resolve, Reorders, LoadTo, IsStale;
    WrittenIsFreshest(pins);
    var w := WrittenPins(pins);
    LoadCounts(w, accounts, now, ttl, |w|);
    LoadRestores(w, accounts, now, ttl, |w|, i);
    OwnIdentityMoves(live, to, accounts, a);
  }

  // ----- Renaming -----

  /** The new name of the first rename that applies. */
  function NewName(renames: seq<(string, string)>, name: string): string {
    if |renames| == 0 then name else if renames[0].0 == name then renames[0].1 else NewName(renames[1..], name)
  }

  predicate Applies(renames: seq<(string, string)>, name: string) {
    |renames| > 0 && (renames[0].0 == name || Applies(renames[1..], name))
  }

  function RenamedAccount(renames: seq<(string, string)>, a: Account): Account { a.(name := NewName(renames, a.name)) }

  function RenamedPin(renames: seq<(string, string)>, p: Pin): Pin { p.(account := RenamedAccount(renames, p.account)) }

  /** How many of the first `k` pins a rename applies to. */
  function Touched(renames: seq<(string, string)>, pins: seq<Pin>, k: nat): nat
    requires k <= |pins|
  {
    if k == 0 then 0 else Touched(renames, pins, k - 1) + if Applies(renames, pins[k - 1].account.name) then 1 else 0
  }

  /** The new name is that of the first rename from the old one, and a name with none stays. */
  lemma {:induction false} FirstRenameApplies(renames: seq<(string, string)>, name: string, i: nat)
    requires i <= |renames| && forall j :: 0 <= j < i ==> renames[j].0 != name
    ensures i < |renames| && renames[i].0 == name ==> NewName(renames, name) == renames[i].1 && Applies(renames, name)
    ensures i == |renames| ==> NewName(renames, name) == name && !Applies(renames, name)
  {
    if i > 0 { FirstRenameApplies(renames[1..], name, i - 1); }
  }

  lemma {:induction false} NotApplied(renames: seq<(string, string)>, name: string)
    requires !Applies(renames, name)
    ensures NewName(renames, name) == name
  {
    if |renames| > 0 { NotApplied(renames[1..], name); }
  }

  /** The pins are edited in place, and only their names. */
  method RenamePins(pins: seq<Pin>, renames: seq<(string, string)>) returns (renamed: seq<Pin>, count: nat)
    ensures |renamed| == |pins| && forall i :: 0 <= i < |pins| ==> renamed[i] == RenamedPin(renames, pins[i])
    ensures count == Touched(renames, pins, |pins|) && (count == 0 ==> renamed == pins)
  {
    renamed, count := pins, 0;
    for i := 0 to |pins|
      invariant |renamed| == |pins| && count == Touched(renames, pins, i) && (count == 0 ==> renamed == pins)
      invariant forall j :: 0 <= j < i ==> renamed[j] == RenamedPin(renames, pins[j])
      invariant forall j :: i <= j < |pins| ==> renamed[j] == pins[j]
    {
      if Applies(renames, renamed[i].account.name) {
        renamed := renamed[i := RenamedPin(renames, renamed[i])];
        count := count + 1;
      } else {
        NotApplied(renames, renamed[i].account.name);
      }
    }
  }

  /** Two of the names in play never become the same name. */
  ghost predicate KeepsApart(renames: seq<(string, string)>, accounts: seq<Account>, a: Account) {
    forall i :: 0 <= i < |accounts| && NewName(renames, accounts[i].name) == NewName(renames, a.name) ==> accounts[i].name == a.name
  }

  function RenamedAccounts(renames: seq<(string, string)>, accounts: seq<Account>): seq<Account> {
    seq(|accounts|, i requires 0 <= i < |accounts| => RenamedAccount(renames, accounts[i]))
  }

  lemma {:induction false} RenameKeepsMatches(renames: seq<(string, string)>, accounts: seq<Account>, a: Account, strict: bool, k: nat)
    requires KeepsApart(renames, accounts, a) && k <= |accounts|
    ensures Matches(RenamedAccounts(renames, accounts), RenamedAccount(renames, a), strict, k) == Matches(accounts, a, strict, k)
  {
    hide NewName;
    if k > 0 {
      RenameKeepsMatches(renames, accounts, a, strict, k - 1);
      assert RenamedAccounts(renames, accounts)[k - 1] == RenamedAccount(renames, accounts[k - 1]);
    }
  }

  /** A pin carried across a rename resolves to the account it resolved to. */
  lemma RenameKeepsResolve(renames: seq<(string, string)>, accounts: seq<Account>, p: Pin)
    requires KeepsApart(renames, accounts, p.account)
    ensures Resolve(RenamedAccounts(renames, accounts), RenamedPin(renames, p).account) == Resolve(accounts, p.account)
  {
    hide NewName, KeepsApart;
    RenameKeepsMatches(renames, accounts, p.account, false, |accounts|);
    RenameKeepsMatches(renames, accounts, p.account, true, |accounts|);
  }
}
