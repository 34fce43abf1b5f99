/** `tcr config set` (`src/config_set.rs`): parsing a setting, saying it back, and writing it into the
    config document. A share is a real; how it is read, spelled and made of a percentage is a parameter. */
module ConfigSet {
  import opened Options
  import opened JsonTree

  datatype Key =
    | SwitchThreshold | ControlReserve | FableWeeklyThreshold | ResetUrgencyTierHours | SessionAffinity | ControlPooled
    | AccountThrottle | FleetThrottle | Pacing | UsageRetentionDays | Http1Only

  function Name(k: Key): string {
    match k
    case SwitchThreshold => "switchThreshold"
    case ControlReserve => "controlReserve"
    case FableWeeklyThreshold => "fableWeeklyThreshold"
    case ResetUrgencyTierHours => "resetUrgencyTierHours"
    case SessionAffinity => "sessionAffinity"
    case ControlPooled => "controlPooled"
    case AccountThrottle => "accountThrottle"
    case FleetThrottle => "fleetThrottle"
    case Pacing => "pacing"
    case UsageRetentionDays => "usageRetentionDays"
    case Http1Only => "http1Only"
  }

  const ALL := [SwitchThreshold, ControlReserve, FableWeeklyThreshold, ResetUrgencyTierHours, SessionAffinity, ControlPooled,
                AccountThrottle, FleetThrottle, Pacing, UsageRetentionDays, Http1Only]

  /** The first key of the list with that name. */
  function FromName(name: string, i: nat): Option<Key>
    requires i <= |ALL|
    decreases |ALL| - i
  {
    if i == |ALL| then None else if Name(ALL[i]) == name then Some(ALL[i]) else FromName(name, i + 1)
  }

  lemma {:induction false} FromNameSound(name: string, i: nat)
    requires i <= |ALL|
    ensures FromName(name, i).Some? ==> Name(FromName(name, i).value) == name
    decreases |ALL| - i
  {
    hide Name;
    if i < |ALL| { FromNameSound(name, i + 1); }
  }

  /** A place in the list, so that names can be told apart without comparing all of them. */
  function Place(k: Key): (i: nat)
    ensures i < |ALL| && ALL[i] == k
  {
    match k
    case SwitchThreshold => 0
    case ControlReserve => 1
    case FableWeeklyThreshold => 2
    case ResetUrgencyTierHours => 3
    case SessionAffinity => 4
    case ControlPooled => 5
    case AccountThrottle => 6
    case FleetThrottle => 7
    case Pacing => 8
    case UsageRetentionDays => 9
    case Http1Only => 10
  }

  /** A letter of each name that no other name of the same length has at that place. */
  function Mark(k: Key): (nat, char) {
    (|Name(k)|, if |Name(k)| > 3 then Name(k)[3] else ' ')
  }

  lemma NamesDiffer(k: Key, j: Key)
    ensures k != j ==> Name(k) != Name(j)
  {
    if Name(k) == Name(j) { assert Mark(k) == Mark(j); }
  }

  lemma {:induction false} FromNameComplete(k: Key, i: nat)
    requires i <= Place(k)
    ensures FromName(Name(k), i) == Some(k)
    decreases |ALL| - i
  {
    hide Name;
    NamesDiffer(ALL[i], k);
    if i < Place(k) {
      assert ALL[i] != k by { PlacesDiffer(i, Place(k)); }
      FromNameComplete(k, i + 1);
    }
  }

  lemma PlacesDiffer(i: nat, j: nat)
    requires i < j < |ALL|
    ensures ALL[i] != ALL[j]
  {
  }

  // ----- Words and numbers -----

  predicate IsBlank(c: char) { c == ' ' || '\U{09}' <= c <= '\U{0D}' }

  function TrimStart(s: string): string { if s != "" && IsBlank(s[0]) then TrimStart(s[1..]) else s }

  function TrimEnd(s: string): string { if s != "" && IsBlank(s[|s| - 1]) then TrimEnd(s[..|s| - 1]) else s }

  function Trim(s: string): string { TrimEnd(TrimStart(s)) }

  /** A text that trimming and splitting leave whole. */
  predicate IsWord(s: string) { s != "" && forall i :: 0 <= i < |s| ==> !IsBlank(s[i]) }

  function TakeWord(s: string): (w: string)
    ensures |w| <= |s|
  {
    if s != "" && !IsBlank(s[0]) then s[..1] + TakeWord(s[1..]) else ""
  }

  /** `split_whitespace`. */
  function Words(s: string): seq<string>
    decreases |s|
  {
    if s == "" then []
    else if IsBlank(s[0]) then Words(s[1..])
    else [TakeWord(s)] + Words(s[|TakeWord(s)|..])
  }

  lemma WordTrims(s: string)
    requires IsWord(s)
    ensures Trim(s) == s
  {
  }

  lemma {:induction false} TakeWordOf(w: string, rest: string)
    requires (forall i :: 0 <= i < |w| ==> !IsBlank(w[i])) && (rest != "" ==> IsBlank(rest[0]))
    ensures TakeWord(w + rest) == w
  {
    if w == "" {
      assert w + rest == rest;
    } else {
      assert (w + rest)[1..] == w[1..] + rest && (w + rest)[0] == w[0];
      TakeWordOf(w[1..], rest);
      assert w == (w + rest)[..1] + w[1..];
    }
  }

  lemma WordsOf(w: string, rest: string)
    requires IsWord(w) && (rest != "" ==> IsBlank(rest[0]))
    ensures Words(w + rest) == [w] + Words(rest)
  {
    TakeWordOf(w, rest);
    assert (w + rest)[0] == w[0];
    assert (w + rest)[|w|..] == rest;
  }

  lemma TwoWords(a: string, b: string)
    requires IsWord(a) && IsWord(b)
    ensures Words(a + (" " + b)) == [a, b] && Trim(a + (" " + b)) == a + (" " + b)
  {
    WordsOf(a, " " + b);
    assert (" " + b)[1..] == b && b + "" == b;
    WordsOf(b, "");
    var s := a + (" " + b);
    assert s[0] == a[0] && s[|s| - 1] == b[|b| - 1];
  }

  function Digit(n: nat): char
    requires n < 10
  {
    '0' + n as char
  }

  /** Decimal digits without a leading zero. */
  function Show(n: nat): string {
    if n < 10 then [Digit(n)] else Show(n / 10) + [Digit(n % 10)]
  }

  /** The number a run of digits spells, `None` at anything else. */
  function DigitsValue(s: string): Option<nat> {
    if s == "" then Some(0)
    else
      var front :- DigitsValue(s[..|s| - 1]);
      var c := s[|s| - 1];
      if '0' <= c <= '9' then Some(front * 10 + (c - '0') as nat) else None
  }

  /** An unsigned number that fits: digits, after a plus sign if there is one. */
  function ReadNat(s: string, max: nat): Option<nat> {
    var digits := if s != "" && s[0] == '+' then s[1..] else s;
    if digits == "" then None
    else
      var n :- DigitsValue(digits);
      if n <= max then Some(n) else None
  }

  lemma {:induction false} ShowReads(n: nat)
    ensures DigitsValue(Show(n)) == Some(n) && IsWord(Show(n)) && Show(n)[0] != '+' && 'a' !in Show(n) && 'f' !in Show(n)
  {
    if n < 10 {
      assert Show(n)[..0] == "";
    } else {
      ShowReads(n / 10);
      var front := Show(n / 10);
      assert Show(n) == front + [Digit(n % 10)] && Show(n)[..|front|] == front;
    }
  }

  lemma NatRoundTrip(n: nat, max: nat)
    requires n <= max
    ensures ReadNat(Show(n), max) == Some(n) && IsWord(Show(n)) && Show(n) != "off"
  {
    hide Show, DigitsValue;
    ShowReads(n);
  }

  // ----- Settings -----

  datatype Throttle = Throttle(minSpacingMs: nat, burst: nat)

  datatype Setting =
    | SetSwitchThreshold(share: real)
    | SetControlReserve(share: real)
    | SetFableWeeklyThreshold(override: Option<real>)
    | SetResetUrgencyTierHours(count: nat)
    | SetSessionAffinity(on: bool)
    | SetControlPooled(on: bool)
    | SetAccountThrottle(bucket: Option<Throttle>)
    | SetFleetThrottle(bucket: Option<Throttle>)
    | SetPacing(cap: Option<nat>)
    | SetUsageRetentionDays(count: nat)
    | SetHttp1Only(on: bool)

  const U32 := 0xFFFF_FFFF
  const U64 := 0xFFFF_FFFF_FFFF_FFFF

  /** How shares are read and spelled, `str::parse` and `f64::to_string`, and how a percentage is turned
      into a share: a division that rounds where shares are floats. */
  datatype Shares = Shares(read: string -> Option<real>, show: real -> string, hundredth: real -> real)

  /** A share is said in one word that is read back to it and is not taken for anything else. */
  predicate SaidBack(c: Shares, f: real) {
    c.read(c.show(f)) == Some(f) && IsWord(c.show(f)) && c.show(f)[|c.show(f)| - 1] != '%' && c.show(f) != "default"
  }

  /** Every share that can be read is said back. */
  ghost predicate Lawful(c: Shares) {
    forall v: string :: Fraction(c, v).Some? && 0.0 <= Fraction(c, v).value <= 1.0 ==> SaidBack(c, Fraction(c, v).value)
  }

  /** `90%` or `0.9`, within the range. */
  function Share(c: Shares, value: string, zeroOk: bool, max: real): Option<real> {
    var fraction :- Fraction(c, value);
    if (if zeroOk then fraction >= 0.0 else fraction > 0.0) && fraction <= max then Some(fraction) else None
  }

  function Fraction(c: Shares, value: string): Option<real> {
    if value != "" && value[|value| - 1] == '%' then
      var percent :- c.read(Trim(value[..|value| - 1]));
      Some(c.hundredth(percent))
    else c.read(value)
  }

  function Switch(value: string): Option<bool> {
    if value == "on" || value == "true" then Some(true)
    else if value == "off" || value == "false" then Some(false)
    else None
  }

  function ReadThrottle(value: string): Option<Option<Throttle>> {
    if value == "off" then Some(None)
    else
      var words := Words(value);
      if |words| != 2 then None
      else
        var spacing :- ReadNat(words[0], U64);
        var burst :- ReadNat(words[1], U32);
        if spacing >= 1 && burst >= 1 then Some(Some(Throttle(spacing, burst))) else None
  }

  function ReadPacing(value: string): Option<Option<nat>> {
    if value == "off" then Some(None)
    else
      var cap :- ReadNat(value, U32);
      if cap >= 1 then Some(Some(cap)) else None
  }

  function ReadFable(c: Shares, value: string): Option<Option<real>> {
    if value == "default" then Some(None)
    else
      var f :- Share(c, value, false, 1.0);
      Some(Some(f))
  }

  /** Whether the words mean `setting`'s value, for its own key. */
  function ParseFor(c: Shares, k: Key, value: string): Option<Setting> {
    match k
    case SwitchThreshold => var f :- Share(c, value, false, 1.0); Some(SetSwitchThreshold(f))
    case ControlReserve => var f :- Share(c, value, true, 0.5); Some(SetControlReserve(f))
    case FableWeeklyThreshold => var f :- ReadFable(c, value); Some(SetFableWeeklyThreshold(f))
    case ResetUrgencyTierHours => var n :- ReadNat(value, U32); Some(SetResetUrgencyTierHours(n))
    case UsageRetentionDays => var n :- ReadNat(value, U32); Some(SetUsageRetentionDays(n))
    case SessionAffinity => var b :- Switch(value); Some(SetSessionAffinity(b))
    case ControlPooled => var b :- Switch(value); Some(SetControlPooled(b))
    case Http1Only => var b :- Switch(value); Some(SetHttp1Only(b))
    case AccountThrottle => var t :- ReadThrottle(value); Some(SetAccountThrottle(t))
    case FleetThrottle => var t :- ReadThrottle(value); Some(SetFleetThrottle(t))
    case Pacing => var n :- ReadPacing(value); Some(SetPacing(n))
  }

  function Parse(c: Shares, key: string, value: string): Option<Setting> {
    var k :- FromName(key, 0);
    ParseFor(c, k, Trim(value))
  }

  function KeyOf(s: Setting): Key {
    match s
    case SetSwitchThreshold(_) => SwitchThreshold
    case SetControlReserve(_) => ControlReserve
    case SetFableWeeklyThreshold(_) => FableWeeklyThreshold
    case SetResetUrgencyTierHours(_) => ResetUrgencyTierHours
    case SetSessionAffinity(_) => SessionAffinity
    case SetControlPooled(_) => ControlPooled
    case SetAccountThrottle(_) => AccountThrottle
    case SetFleetThrottle(_) => FleetThrottle
    case SetPacing(_) => Pacing
    case SetUsageRetentionDays(_) => UsageRetentionDays
    case SetHttp1Only(_) => Http1Only
  }

  function BucketText(t: Option<Throttle>): string {
    if t.None? then "off" else Show(t.value.minSpacingMs) + (" " + Show(t.value.burst))
  }

  function ValueText(c: Shares, s: Setting): string {
    match s
    case SetSwitchThreshold(f) => c.show(f)
    case SetControlReserve(f) => c.show(f)
    case SetFableWeeklyThreshold(f) => if f.None? then "default" else c.show(f.value)
    case SetResetUrgencyTierHours(n) => Show(n)
    case SetUsageRetentionDays(n) => Show(n)
    case SetSessionAffinity(b) => if b then "on" else "off"
    case SetControlPooled(b) => if b then "on" else "off"
    case SetHttp1Only(b) => if b then "on" else "off"
    case SetAccountThrottle(t) => BucketText(t)
    case SetFleetThrottle(t) => BucketText(t)
    case SetPacing(n) => if n.None? then "off" else Show(n.value)
  }

  // ----- Saying a setting back -----

  predicate InShare(f: real, zeroOk: bool, max: real) { (if zeroOk then f >= 0.0 else f > 0.0) && f <= max }

  predicate ThrottleOk(t: Option<Throttle>) { t.Some? ==> 1 <= t.value.minSpacingMs <= U64 && 1 <= t.value.burst <= U32 }

  /** Values the server applies exactly as written. */
  predicate InRange(s: Setting) {
    match s
    case SetSwitchThreshold(f) => InShare(f, false, 1.0)
    case SetControlReserve(f) => InShare(f, true, 0.5)
    case SetFableWeeklyThreshold(f) => f.Some? ==> InShare(f.value, false, 1.0)
    case SetResetUrgencyTierHours(n) => n <= U32
    case SetUsageRetentionDays(n) => n <= U32
    case SetSessionAffinity(_) => true
    case SetControlPooled(_) => true
    case SetHttp1Only(_) => true
    case SetAccountThrottle(t) => ThrottleOk(t)
    case SetFleetThrottle(t) => ThrottleOk(t)
    case SetPacing(n) => n.Some? ==> 1 <= n.value <= U32
  }

  lemma ShareRoundTrip(c: Shares, f: real, zeroOk: bool, max: real)
    requires SaidBack(c, f) && InShare(f, zeroOk, max)
    ensures Share(c, c.show(f), zeroOk, max) == Some(f) && Trim(c.show(f)) == c.show(f) && c.show(f) != "default"
  {
    WordTrims(c.show(f));
  }

  lemma ShortWordsTrim()
    ensures Trim("on") == "on" && Trim("off") == "off" && Trim("default") == "default"
  {
    WordTrims("on");
    WordTrims("off");
    WordTrims("default");
  }

  lemma ThrottleRoundTrip(t: Option<Throttle>)
    requires ThrottleOk(t)
    ensures ReadThrottle(BucketText(t)) == Some(t) && Trim(BucketText(t)) == BucketText(t)
  {
    hide Trim, Words, Show, ReadNat;
    if t.None? {
      ShortWordsTrim();
    } else {
      NatRoundTrip(t.value.minSpacingMs, U64);
      NatRoundTrip(t.value.burst, U32);
      TwoWords(Show(t.value.minSpacingMs), Show(t.value.burst));
      HasBlank(Show(t.value.minSpacingMs), Show(t.value.burst));
    }
  }

  lemma HasBlank(a: string, b: string)
    ensures a + (" " + b) != "off"
  {
    assert (a + (" " + b))[|a|] == ' ';
  }

  lemma CountRoundTrip(n: nat)
    requires n <= U32
    ensures ReadNat(Show(n), U32) == Some(n) && Trim(Show(n)) == Show(n) && Show(n) != "off"
  {
    hide Show, ReadNat, Trim;
    NatRoundTrip(n, U32);
    WordTrims(Show(n));
  }

  lemma PacingRoundTrip(n: Option<nat>)
    requires n.Some? ==> 1 <= n.value <= U32
    ensures var text := if n.None? then "off" else Show(n.value); ReadPacing(text) == Some(n) && Trim(text) == text
  {
    hide Show, ReadNat, Trim;
    ShortWordsTrim();
    if n.Some? { CountRoundTrip(n.value); }
  }

  lemma FableRoundTrip(c: Shares, f: Option<real>)
    requires f.Some? ==> SaidBack(c, f.value) && InShare(f.value, false, 1.0)
    ensures var text := if f.None? then "default" else c.show(f.value); ReadFable(c, text) == Some(f) && Trim(text) == text
  {
    hide Share, Trim;
    ShortWordsTrim();
    if f.Some? { ShareRoundTrip(c, f.value, false, 1.0); }
  }

  /** The share of a setting, if it has one, is said back. */
  predicate ShareSaidBack(c: Shares, s: Setting) {
    match s
    case SetSwitchThreshold(f) => SaidBack(c, f)
    case SetControlReserve(f) => SaidBack(c, f)
    case SetFableWeeklyThreshold(f) => f.Some? ==> SaidBack(c, f.value)
    case _ => true
  }

  /** A setting in range is read back from its own words. */
  lemma ValueTextReads(c: Shares, s: Setting)
    requires ShareSaidBack(c, s) && InRange(s)
    ensures ParseFor(c, KeyOf(s), ValueText(c, s)) == Some(s) && Trim(ValueText(c, s)) == ValueText(c, s)
  {
    hide SaidBack, Share, Trim, ReadNat, Show, ReadThrottle, BucketText, ReadPacing, ReadFable, InShare, ThrottleOk;
    ShortWordsTrim();
    match s
    case SetSwitchThreshold(f) => ShareRoundTrip(c, f, false, 1.0);
    case SetControlReserve(f) => ShareRoundTrip(c, f, true, 0.5);
    case SetFableWeeklyThreshold(f) => FableRoundTrip(c, f);
    case SetResetUrgencyTierHours(n) => CountRoundTrip(n);
    case SetUsageRetentionDays(n) => CountRoundTrip(n);
    case SetSessionAffinity(b) =>
    case SetControlPooled(b) =>
    case SetHttp1Only(b) =>
    case SetAccountThrottle(t) => ThrottleRoundTrip(t);
    case SetFleetThrottle(t) => ThrottleRoundTrip(t);
    case SetPacing(n) => PacingRoundTrip(n);
  }

  /** Whatever is parsed is in range and belongs to the key that was asked for. */
  lemma ParsedIsInRange(c: Shares, k: Key, value: string)
    requires ParseFor(c, k, value).Some?
    ensures InRange(ParseFor(c, k, value).value) && KeyOf(ParseFor(c, k, value).value) == k
  {
    hide Fraction, Words, DigitsValue;
  }

  /** And its share, if it has one, is said back. */
  lemma ParsedIsSaidBack(c: Shares, k: Key, value: string)
    requires Lawful(c) && ParseFor(c, k, value).Some?
    ensures ShareSaidBack(c, ParseFor(c, k, value).value)
  {
    hide Fraction, Words, DigitsValue, SaidBack;
  }

  /** Every setting the parser accepts is recovered from the words it is said back in. */
  lemma SettingRoundTrip(c: Shares, key: string, value: string)
    requires Lawful(c) && Parse(c, key, value).Some?
    ensures var s := Parse(c, key, value).value; Name(KeyOf(s)) == key && Parse(c, key, ValueText(c, s)) == Some(s)
  {
    hide Lawful, ParseFor, Trim, FromName, ValueText, InRange, ShareSaidBack;
    FromNameSound(key, 0);
    var k := FromName(key, 0).value;
    ParsedIsInRange(c, k, Trim(value));
    ParsedIsSaidBack(c, k, Trim(value));
    ValueTextReads(c, ParseFor(c, k, Trim(value)).value);
  }

  /** And every value in range can be set, under its own name, once its share can be said. */
  lemma EveryValueCanBeSet(c: Shares, s: Setting)
    requires ShareSaidBack(c, s) && InRange(s)
    ensures Parse(c, Name(KeyOf(s)), ValueText(c, s)) == Some(s)
  {
    hide ParseFor, Trim, FromName, ValueText, InRange, ShareSaidBack;
    FromNameComplete(KeyOf(s), 0);
    ValueTextReads(c, s);
  }

  // ----- Writing a setting into the document -----

  type Document = map<string, Json>

  function Flag(b: bool): Json { JBare(if b then "true" else "false") }

  function Bucket(t: Option<Throttle>): Json {
    if t.None? then JObj(map[])
    else JObj(map["minSpacingMs" := JBare(Show(t.value.minSpacingMs)), "burst" := JBare(Show(t.value.burst))])
  }

  const CAP_FIELD := "maxInFlightPerAccount"

  /** The pacing object with a new cap, keeping what else the file says about pacing. */
  function Paced(existing: Option<Json>, cap: nat): Json {
    var fields := if existing.Some? && existing.value.JObj? then existing.value.fields else map[];
    JObj(fields[CAP_FIELD := JBare(Show(cap))])
  }

  function At(doc: Document, name: string): Option<Json> { if name in doc then Some(doc[name]) else None }

  /** The value the key gets, given what it has; `None` removes the key. */
  function NewValue(c: Shares, s: Setting, existing: Option<Json>): Option<Json> {
    match s
    case SetSwitchThreshold(f) => Some(JBare(c.show(f)))
    case SetControlReserve(f) => Some(JBare(c.show(f)))
    case SetFableWeeklyThreshold(f) => if f.None? then None else Some(JBare(c.show(f.value)))
    case SetResetUrgencyTierHours(n) => Some(JBare(Show(n)))
    case SetUsageRetentionDays(n) => Some(JBare(Show(n)))
    case SetSessionAffinity(b) => Some(Flag(b))
    case SetControlPooled(b) => Some(Flag(b))
    case SetHttp1Only(b) => Some(Flag(b))
    case SetAccountThrottle(t) => Some(Bucket(t))
    case SetFleetThrottle(t) => Some(Bucket(t))
    case SetPacing(n) => if n.None? then None else Some(Paced(existing, n.value))
  }

  function Put(doc: Document, name: string, value: Option<Json>): Document {
    if value.Some? then doc[name := value.value] else doc - {name}
  }

  function Apply(c: Shares, s: Setting, doc: Document): Document {
    Put(doc, Name(KeyOf(s)), NewValue(c, s, At(doc, Name(KeyOf(s)))))
  }

  lemma PutReads(doc: Document, name: string, value: Option<Json>, other: string)
    ensures At(Put(doc, name, value), other) == if other == name then value else At(doc, other)
  {
  }

  lemma PutSame(a: Document, b: Document)
    requires forall name: string :: At(a, name) == At(b, name)
    ensures a == b
  {
    forall name: string ensures name in a <==> name in b { assert At(a, name) == At(b, name); }
    forall name: string | name in a ensures a[name] == b[name] { assert At(a, name) == At(b, name); }
  }

  /** Only the setting's own key is touched. */
  lemma ApplyOnlyItsKey(c: Shares, s: Setting, doc: Document, other: string)
    ensures At(Apply(c, s, doc), other) ==
            if other == Name(KeyOf(s)) then NewValue(c, s, At(doc, other)) else At(doc, other)
  {
    hide Name, NewValue, Put, At;
    PutReads(doc, Name(KeyOf(s)), NewValue(c, s, At(doc, Name(KeyOf(s)))), other);
  }

  /** What a setting makes of its key no longer changes once it is there. */
  lemma NewValueTwice(c: Shares, s: Setting, existing: Option<Json>)
    ensures NewValue(c, s, NewValue(c, s, existing)) == NewValue(c, s, existing)
  {
    if s.SetPacing? && s.cap.Some? {
      var once := Paced(existing, s.cap.value);
      assert Paced(Some(once), s.cap.value).fields == once.fields;
    }
  }

  /** Setting the same thing twice is setting it once. */
  lemma ApplyTwice(c: Shares, s: Setting, doc: Document)
    ensures Apply(c, s, Apply(c, s, doc)) == Apply(c, s, doc)
  {
    hide Name, NewValue, At, Apply;
    var once := Apply(c, s, doc);
    forall name: string ensures At(Apply(c, s, once), name) == At(once, name) {
      ApplyOnlyItsKey(c, s, doc, name);
      ApplyOnlyItsKey(c, s, once, name);
      NewValueTwice(c, s, At(doc, name));
    }
    PutSame(Apply(c, s, once), once);
  }

  /** Settings of different keys can be made in either order. */
  lemma ApplyCommutes(c: Shares, s: Setting, t: Setting, doc: Document)
    requires KeyOf(s) != KeyOf(t)
    ensures Apply(c, s, Apply(c, t, doc)) == Apply(c, t, Apply(c, s, doc))
  {
    hide Name, NewValue, At, Apply;
    NamesDiffer(KeyOf(s), KeyOf(t));
    var st, ts := Apply(c, s, Apply(c, t, doc)), Apply(c, t, Apply(c, s, doc));
    forall name: string ensures At(st, name) == At(ts, name) {
      ApplyOnlyItsKey(c, t, doc, name);
      ApplyOnlyItsKey(c, s, doc, name);
      ApplyOnlyItsKey(c, s, Apply(c, t, doc), name);
      ApplyOnlyItsKey(c, t, Apply(c, s, doc), name);
    }
    PutSame(st, ts);
  }

  /** The pacing cap leaves every other pacing field of the file as it is. */
  lemma PacingKeepsSiblings(c: Shares, cap: nat, doc: Document, field: string)
    requires field != CAP_FIELD && At(doc, "pacing").Some? && At(doc, "pacing").value.JObj?
    ensures var after := At(Apply(c, SetPacing(Some(cap)), doc), "pacing");
      && after.Some? && after.value.JObj?
      && (field in after.value.fields <==> field in doc["pacing"].fields)
      && (field in doc["pacing"].fields ==> after.value.fields[field] == doc["pacing"].fields[field])
      && CAP_FIELD in after.value.fields && after.value.fields[CAP_FIELD] == JBare(Show(cap))
  {
    ApplyOnlyItsKey(c, SetPacing(Some(cap)), doc, "pacing");
  }

  /** Other pacing fields that turning pacing off takes with it. */
  predicate HasSibling(existing: Option<Json>) {
    existing.Some? && existing.value.JObj? && exists field :: field in existing.value.fields && field != CAP_FIELD
  }

  /** The later setting of a key hides the earlier one, but for one pair: turning pacing off and on again
      loses its other fields. */
  lemma LaterHidesEarlier(c: Shares, s: Setting, t: Setting, doc: Document)
    requires KeyOf(s) == KeyOf(t)
    ensures Apply(c, s, Apply(c, t, doc)) == Apply(c, s, doc) <==>
      !(t == SetPacing(None) && s.SetPacing? && s.cap.Some? && HasSibling(At(doc, "pacing")))
  {
    var name := Name(KeyOf(s));
    var both, one := Apply(c, s, Apply(c, t, doc)), Apply(c, s, doc);
    var existing := At(doc, name);
    hide Apply, Name, HasSibling;
    forall other: string ensures At(both, other) ==
      if other == name then NewValue(c, s, NewValue(c, t, existing)) else At(one, other)
    {
      ApplyOnlyItsKey(c, t, doc, other);
      ApplyOnlyItsKey(c, s, doc, other);
      ApplyOnlyItsKey(c, s, Apply(c, t, doc), other);
    }
    ApplyOnlyItsKey(c, s, doc, name);
    PacingName();
    ValueOverValue(c, s, t, existing);
    if At(both, name) == At(one, name) { PutSame(both, one); }
  }

  lemma PacingName()
    ensures Name(Pacing) == "pacing"
  {
  }

  lemma ValueOverValue(c: Shares, s: Setting, t: Setting, existing: Option<Json>)
    requires KeyOf(s) == KeyOf(t)
    ensures NewValue(c, s, NewValue(c, t, existing)) == NewValue(c, s, existing) <==>
      !(t == SetPacing(None) && s.SetPacing? && s.cap.Some? && HasSibling(existing))
  {
    if s.SetPacing? && s.cap.Some? {
      var cap := s.cap.value;
      if t.cap.Some? {
        var once := Paced(existing, t.cap.value);
        assert Paced(Some(once), cap).fields == Paced(existing, cap).fields;
      } else {
        PacedFresh(existing, cap);
      }
    }
  }

  lemma PacedFresh(existing: Option<Json>, cap: nat)
    ensures Paced(None, cap) == Paced(existing, cap) <==> !HasSibling(existing)
  {
    var alone, kept := Paced(None, cap).fields, Paced(existing, cap).fields;
    if HasSibling(existing) {
      var field :| field in existing.value.fields && field != CAP_FIELD;
      assert field in kept && field !in alone;
    } else {
      assert forall field :: field in kept ==> field == CAP_FIELD;
      assert kept == alone;
    }
  }

  /** What a save did to the file. */
  datatype Write = Updated | Unchanged

  /** The config file: a read, an edit and a write that is skipped when nothing changed, so that saving
      the same setting again writes nothing. */
  class ConfigFile {
    var doc: Document

    constructor (doc: Document)
      ensures this.doc == doc
    {
      this.doc := doc;
    }

    method SaveSetting(c: Shares, s: Setting) returns (r: Write)
      modifies this
      ensures doc == Apply(c, s, old(doc)) && (r == Unchanged <==> doc == old(doc))
      ensures Apply(c, s, doc) == doc
    {
      ApplyTwice(c, s, doc);
      var edited := Apply(c, s, doc);
      if edited == doc { return Unchanged; }
      doc := edited;
      r := Updated;
    }
  }
}
