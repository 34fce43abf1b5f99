/** What `tcr config set <key> <value>` accepts and what it makes of the document, end to end: which texts
    are values of which key, and what the key then holds, in the file's own words. */
module ConfigValues {
  import opened Sequences
  import opened Options
  import opened JsonTree
  import opened ConfigSet

  // ----- Whitespace and words -----

  predicate Spaces(s: string) { forall i :: 0 <= i < |s| ==> s[i] in {' ', '\t', '\n', '\U{0B}', '\U{0C}', '\r'} }

  /** No whitespace anywhere, and something. */
  predicate OneWord(s: string) {
    s != "" && forall i :: 0 <= i < |s| ==> s[i] !in {' ', '\t', '\n', '\U{0B}', '\U{0C}', '\r'}
  }

  lemma BlankIff(c: char)
    ensures IsBlank(c) <==> c in {' ', '\t', '\n', '\U{0B}', '\U{0C}', '\r'}
  {
  }

  lemma WordIff(s: string)
    ensures OneWord(s) <==> IsWord(s)
  {
    forall i | 0 <= i < |s| ensures IsBlank(s[i]) <==> s[i] in {' ', '\t', '\n', '\U{0B}', '\U{0C}', '\r'} { BlankIff(s[i]); }
  }

  /** Neither end is whitespace. */
  predicate IsTrimmed(s: string) { s != "" ==> OneWord(s[..1]) && OneWord(s[|s| - 1..]) }

  lemma {:induction false} TrimStartCuts(s: string) returns (front: string)
    ensures Spaces(front) && s == front + TrimStart(s) && (TrimStart(s) != "" ==> !IsBlank(TrimStart(s)[0]))
  {
    if s != "" && IsBlank(s[0]) {
      var more := TrimStartCuts(s[1..]);
      BlankIff(s[0]);
      front := s[..1] + more;
      Assoc(s[..1], more, TrimStart(s));
      assert s == s[..1] + s[1..];
    } else {
      front := "";
      EmptyLeft(s);
    }
  }

  lemma {:induction false} TrimEndCuts(s: string) returns (back: string)
    ensures Spaces(back) && s == TrimEnd(s) + back && (TrimEnd(s) != "" ==> !IsBlank(TrimEnd(s)[|TrimEnd(s)| - 1]))
  {
    if s != "" && IsBlank(s[|s| - 1]) {
      var more := TrimEndCuts(s[..|s| - 1]);
      BlankIff(s[|s| - 1]);
      back := more + s[|s| - 1..];
      Assoc(TrimEnd(s), more, s[|s| - 1..]);
      assert s == s[..|s| - 1] + s[|s| - 1..];
    } else {
      back := "";
      EmptyRight(s);
    }
  }

  /** Trimming takes whitespace off both ends, and all of it. */
  lemma TrimCuts(s: string) returns (front: string, back: string)
    ensures Spaces(front) && Spaces(back) && s == front + (Trim(s) + back) && IsTrimmed(Trim(s))
  {
    hide TrimStart, TrimEnd, IsBlank;
    front := TrimStartCuts(s);
    var t := TrimStart(s);
    back := TrimEndCuts(t);
    var u := Trim(s);
    if u != "" {
      assert u[0] == t[0];
      WordIff(u[..1]);
      WordIff(u[|u| - 1..]);
    }
  }

  lemma {:induction false} SkipSpaces(x: string, rest: string)
    requires Spaces(x)
    ensures Words(x + rest) == Words(rest)
  {
    if x == "" {
      EmptyLeft(rest);
    } else {
      BlankIff(x[0]);
      assert (x + rest)[0] == x[0] && (x + rest)[1..] == x[1..] + rest;
      SkipSpaces(x[1..], rest);
    }
  }

  lemma SpacesHaveNoWords(x: string)
    requires Spaces(x)
    ensures Words(x) == []
  {
    SkipSpaces(x, "");
    EmptyRight(x);
  }

  lemma {:induction false} TakeWordIs(s: string)
    ensures TakeWord(s) <= s && (forall i :: 0 <= i < |TakeWord(s)| ==> !IsBlank(TakeWord(s)[i]))
    ensures var rest := s[|TakeWord(s)|..]; rest != "" ==> IsBlank(rest[0])
  {
    if s != "" && !IsBlank(s[0]) {
      TakeWordIs(s[1..]);
      assert s == s[..1] + s[1..];
      assert s[|TakeWord(s)|..] == s[1..][|TakeWord(s[1..])|..];
    }
  }

  /** The first word, with the whitespace before it. */
  lemma {:induction false} FirstWord(s: string) returns (x: string, rest: string)
    requires Words(s) != []
    ensures Spaces(x) && OneWord(Words(s)[0]) && s == x + (Words(s)[0] + rest) && Words(rest) == Words(s)[1..]
    ensures rest != "" ==> IsBlank(rest[0])
    decreases |s|
  {
    if IsBlank(s[0]) {
      var y;
      y, rest := FirstWord(s[1..]);
      BlankIff(s[0]);
      x := s[..1] + y;
      Assoc(s[..1], y, Words(s)[0] + rest);
      assert s == s[..1] + s[1..];
    } else {
      x, rest := "", s[|TakeWord(s)|..];
      TakeWordIs(s);
      WordIff(TakeWord(s));
      EmptyLeft(s);
    }
  }

  lemma {:induction false} NoWords(s: string)
    requires Words(s) == []
    ensures Spaces(s)
    decreases |s|
  {
    if s != "" {
      NoWords(s[1..]);
      BlankIff(s[0]);
    }
  }

  ghost predicate IsPair(s: string, a: string, b: string) {
    OneWord(a) && OneWord(b) && exists x, y, z :: IsSpaced(s, a, b, x, y, z)
  }

  predicate IsSpaced(s: string, a: string, b: string, x: string, y: string, z: string) {
    Spaces(x) && Spaces(y) && Spaces(z) && y != "" && s == x + (a + (y + (b + z)))
  }

  lemma FrontOf(y: string, b: string, z: string)
    requires b != ""
    ensures y == "" ==> (y + (b + z))[0] == b[0]
  {
  }

  /** Two words are two texts without whitespace, with whitespace between them. */
  lemma PairIff(s: string, a: string, b: string)
    ensures Words(s) == [a, b] <==> IsPair(s, a, b)
  {
    hide Words, TakeWord, IsBlank;
    if Words(s) == [a, b] {
      var x, rest := FirstWord(s);
      var y, z := FirstWord(rest);
      NoWords(z);
      WordIff(b);
      FrontOf(y, b, z);
      assert IsSpaced(s, a, b, x, y, z);
    }
    if IsPair(s, a, b) {
      var x, y, z :| IsSpaced(s, a, b, x, y, z);
      BlankIff(y[0]);
      WordIff(a);
      WordIff(b);
      SkipSpaces(x, a + (y + (b + z)));
      assert (y + (b + z))[0] == y[0];
      WordsOf(a, y + (b + z));
      SkipSpaces(y, b + z);
      if z != "" { BlankIff(z[0]); }
      WordsOf(b, z);
      SpacesHaveNoWords(z);
    }
  }

  // ----- Numbers -----

  predicate Zeros(s: string) { forall i :: 0 <= i < |s| ==> s[i] == '0' }

  /** The number in decimal, with leading zeros and a plus sign where they please. */
  ghost predicate Spells(s: string, n: nat) {
    exists sign, zeros :: s == sign + (zeros + Show(n)) && (sign == "" || sign == "+") && Zeros(zeros)
  }

  lemma {:induction false} ZerosAreNothing(zeros: string)
    requires Zeros(zeros)
    ensures DigitsValue(zeros) == Some(0)
  {
    if zeros != "" { ZerosAreNothing(zeros[..|zeros| - 1]); }
  }

  lemma {:induction false} ZerosRead(zeros: string, digits: string)
    requires Zeros(zeros)
    ensures DigitsValue(zeros + digits) == DigitsValue(digits)
    decreases |digits|
  {
    if digits == "" {
      EmptyRight(zeros);
      ZerosAreNothing(zeros);
    } else {
      var s := zeros + digits;
      assert s[..|s| - 1] == zeros + digits[..|digits| - 1];
      ZerosRead(zeros, digits[..|digits| - 1]);
    }
  }

  lemma {:induction false} ValueShows(d: string) returns (zeros: string)
    requires d != "" && DigitsValue(d).Some?
    ensures Zeros(zeros) && d == zeros + Show(DigitsValue(d).value)
  {
    var front, c := d[..|d| - 1], d[|d| - 1];
    assert d == front + [c];
    var n, digit := DigitsValue(d).value, (c - '0') as nat;
    if front == "" {
      zeros := "";
      assert d == zeros + [c];
    } else {
      var m := DigitsValue(front).value;
      var more := ValueShows(front);
      Tens(m, digit);
      if m == 0 {
        zeros := more + "0";
        Assoc(more, "0", [c]);
      } else {
        zeros := more;
        Assoc(more, Show(m), [c]);
      }
    }
  }

  lemma Tens(m: nat, digit: nat)
    requires digit < 10
    ensures (m * 10 + digit) / 10 == m && (m * 10 + digit) % 10 == digit
  {
  }

  /** A number is read exactly when it is spelled so and fits. */
  lemma ReadNatIff(s: string, max: nat, n: nat)
    ensures ReadNat(s, max) == Some(n) <==> n <= max && Spells(s, n)
  {
    hide DigitsValue, Show;
    if ReadNat(s, max) == Some(n) {
      var signed := s != "" && s[0] == '+';
      var digits := if signed then s[1..] else s;
      var zeros := ValueShows(digits);
      var sign := if signed then "+" else "";
      assert s == sign + (zeros + Show(n));
    }
    if n <= max && Spells(s, n) {
      var sign, zeros :| s == sign + (zeros + Show(n)) && (sign == "" || sign == "+") && Zeros(zeros);
      ShowReads(n);
      ZerosRead(zeros, Show(n));
      var digits := zeros + Show(n);
      assert digits != "" && digits[0] == if zeros == "" then Show(n)[0] else zeros[0];
      assert if sign == "" then s == digits else s[0] == '+' && s[1..] == digits;
    }
  }

  // ----- Keys -----

  /** Exactly the eleven names are keys, each its own. */
  lemma NamesAre(name: string)
    ensures FromName(name, 0).Some? <==>
      name in {"switchThreshold", "controlReserve", "fableWeeklyThreshold", "resetUrgencyTierHours", "sessionAffinity", "controlPooled",
               "accountThrottle", "fleetThrottle", "pacing", "usageRetentionDays", "http1Only"}
  {
    FromNameSound(name, 0);
    if FromName(name, 0).None? {
      forall k: Key ensures name != Name(k) { FromNameComplete(k, 0); }
      NamesListed(name);
    }
  }

  lemma NamesListed(name: string)
    requires forall k: Key :: name != Name(k)
    ensures name !in {"switchThreshold", "controlReserve", "fableWeeklyThreshold", "resetUrgencyTierHours", "sessionAffinity",
                      "controlPooled", "accountThrottle", "fleetThrottle", "pacing", "usageRetentionDays", "http1Only"}
  {
    assert forall k: Key :: Name(k) == Name(k) ==> name != Name(k);
    assert name != Name(SwitchThreshold) && name != Name(ControlReserve) && name != Name(FableWeeklyThreshold);
    assert name != Name(ResetUrgencyTierHours) && name != Name(SessionAffinity) && name != Name(ControlPooled);
    assert name != Name(AccountThrottle) && name != Name(FleetThrottle) && name != Name(Pacing);
    assert name != Name(UsageRetentionDays) && name != Name(Http1Only);
  }

  /** A key is read as the one value of its kind. */
  lemma ReadFor(c: Shares, k: Key, name: string, value: string)
    requires Name(k) == name
    ensures Parse(c, name, value) == ParseFor(c, k, Trim(value))
  {
    hide Name;
    FromNameComplete(k, 0);
  }

  lemma Written(c: Shares, s: Setting, doc: Document, name: string)
    requires Name(KeyOf(s)) == name
    ensures var v := NewValue(c, s, At(doc, name)); Apply(c, s, doc) == if v.Some? then doc[name := v.value] else doc - {name}
  {
    hide Name, NewValue;
  }

  // ----- What each kind of key accepts, and what the document then says -----

  /** On or off. */
  lemma SwitchIsSet(c: Shares, key: string, value: string, doc: Document)
    requires key in {"sessionAffinity", "controlPooled", "http1Only"}
    ensures Parse(c, key, value).Some? <==> Trim(value) in {"on", "true", "off", "false"}
    ensures Parse(c, key, value).Some? ==>
      Apply(c, Parse(c, key, value).value, doc) ==
        doc[key := JBare(if Trim(value) in {"on", "true"} then "true" else "false")]
  {
    var k := if key == "sessionAffinity" then SessionAffinity else if key == "controlPooled" then ControlPooled else Http1Only;
    assert Name(k) == key;
    hide Name, Trim, Parse, Apply;
    SwitchFor(c, k, key, value, doc);
    SwitchIff(Trim(value));
  }

  predicate IsOn(v: string) { v in {"on", "true"} }

  lemma SwitchIff(v: string)
    ensures Switch(v).Some? <==> v in {"on", "true", "off", "false"}
    ensures Switch(v).Some? ==> Switch(v).value == IsOn(v)
  {
  }

  lemma SwitchFor(c: Shares, k: Key, key: string, value: string, doc: Document)
    requires k in {SessionAffinity, ControlPooled, Http1Only} && Name(k) == key
    ensures Parse(c, key, value).Some? <==> Switch(Trim(value)).Some?
    ensures Parse(c, key, value).Some? ==>
      Apply(c, Parse(c, key, value).value, doc) == doc[key := JBare(if Switch(Trim(value)).value then "true" else "false")]
  {
    hide Name, Trim, Parse, Apply, Switch;
    ReadFor(c, k, key, value);
    if Parse(c, key, value).Some? { Written(c, Parse(c, key, value).value, doc, key); }
  }

  /** A whole number of 32 bits. */
  lemma CountIsSet(c: Shares, key: string, value: string, doc: Document, n: nat)
    requires key in {"resetUrgencyTierHours", "usageRetentionDays"}
    ensures (Parse(c, key, value).Some? && Apply(c, Parse(c, key, value).value, doc) == doc[key := JBare(Show(n))]) <==>
            n <= 4294967295 && Spells(Trim(value), n)
    ensures Parse(c, key, value).Some? ==> exists m: nat :: m <= 4294967295 && Spells(Trim(value), m)
  {
    var k := if key == "resetUrgencyTierHours" then ResetUrgencyTierHours else UsageRetentionDays;
    assert Name(k) == key;
    hide Name, Trim, Parse, Apply, ReadNat, Show, Spells;
    CountFor(c, k, key, value, doc);
    ReadNatIff(Trim(value), U32, n);
    var r := ReadNat(Trim(value), U32);
    if r.Some? {
      ReadNatIff(Trim(value), U32, r.value);
      SameEntry(doc, key, n, r.value);
    }
  }

  lemma CountFor(c: Shares, k: Key, key: string, value: string, doc: Document)
    requires k in {ResetUrgencyTierHours, UsageRetentionDays} && Name(k) == key
    ensures var r := ReadNat(Trim(value), U32);
      && (Parse(c, key, value).Some? <==> r.Some?)
      && (r.Some? ==> Apply(c, Parse(c, key, value).value, doc) == doc[key := JBare(Show(r.value))])
  {
    hide Name, Trim, Parse, Apply, ReadNat, Show;
    ReadFor(c, k, key, value);
    if Parse(c, key, value).Some? { Written(c, Parse(c, key, value).value, doc, key); }
  }

  lemma SameEntry(doc: Document, key: string, n: nat, m: nat)
    ensures doc[key := JBare(Show(n))] == doc[key := JBare(Show(m))] ==> n == m
  {
    hide Show;
    assert doc[key := JBare(Show(n))][key] == JBare(Show(n));
    SameShow(n, m);
  }

  lemma SameShow(n: nat, m: nat)
    ensures Show(n) == Show(m) ==> n == m
  {
    hide Show, DigitsValue;
    ShowReads(n);
    ShowReads(m);
  }

  /** `off`, or milliseconds and a burst, both at least one, in 64 and 32 bits. */
  lemma ThrottleIsSet(c: Shares, key: string, value: string, doc: Document)
    requires key in {"accountThrottle", "fleetThrottle"}
    ensures Trim(value) == "off" ==>
      Parse(c, key, value).Some? && Apply(c, Parse(c, key, value).value, doc) == doc[key := JObj(map[])]
    ensures Trim(value) != "off" ==>
      (Parse(c, key, value).Some? <==> exists ms: nat, burst: nat :: IsThrottle(Trim(value), ms, burst))
    ensures forall ms: nat, burst: nat :: Trim(value) != "off" && IsThrottle(Trim(value), ms, burst) ==>
      && Parse(c, key, value).Some?
      && Apply(c, Parse(c, key, value).value, doc) ==
           doc[key := JObj(map["minSpacingMs" := JBare(Show(ms)), "burst" := JBare(Show(burst))])]
  {
    var k := if key == "accountThrottle" then AccountThrottle else FleetThrottle;
    assert Name(k) == key;
    hide Name, Trim, Parse, Apply, ReadThrottle, Bucket, IsThrottle;
    ThrottleFor(c, k, key, value, doc);
    BucketIs();
    if Trim(value) == "off" {
      OffIsRead();
    } else {
      ThrottleIff(Trim(value));
      if ReadThrottle(Trim(value)).Some? { ThrottleIsOn(Trim(value)); }
    }
  }

  lemma ThrottleFor(c: Shares, k: Key, key: string, value: string, doc: Document)
    requires k in {AccountThrottle, FleetThrottle} && Name(k) == key
    ensures var r := ReadThrottle(Trim(value));
      && (Parse(c, key, value).Some? <==> r.Some?)
      && (r.Some? ==> Apply(c, Parse(c, key, value).value, doc) == doc[key := Bucket(r.value)])
  {
    hide Name, Trim, Parse, Apply, ReadThrottle, Bucket;
    ReadFor(c, k, key, value);
    if Parse(c, key, value).Some? { Written(c, Parse(c, key, value).value, doc, key); }
  }

  lemma BucketIs()
    ensures Bucket(None) == JObj(map[])
    ensures forall ms: nat, burst: nat ::
      Bucket(Some(Throttle(ms, burst))) == JObj(map["minSpacingMs" := JBare(Show(ms)), "burst" := JBare(Show(burst))])
  {
    hide Show;
  }

  lemma OffIsRead()
    ensures ReadThrottle("off") == Some(None)
  {
  }

  ghost predicate IsThrottle(v: string, ms: nat, burst: nat) {
    && 1 <= ms <= 18446744073709551615 && 1 <= burst <= 4294967295
    && exists a, b :: IsPair(v, a, b) && Spells(a, ms) && Spells(b, burst)
  }

  lemma ThrottleIff(v: string)
    requires v != "off"
    ensures forall ms: nat, burst: nat :: ReadThrottle(v) == Some(Some(Throttle(ms, burst))) <==> IsThrottle(v, ms, burst)
  {
    hide Words, ReadNat, IsPair, Spells;
    forall ms: nat, burst: nat ensures ReadThrottle(v) == Some(Some(Throttle(ms, burst))) <==> IsThrottle(v, ms, burst) {
      if ReadThrottle(v) == Some(Some(Throttle(ms, burst))) {
        var words := Words(v);
        assert words == [words[0], words[1]];
        PairIff(v, words[0], words[1]);
        ReadNatIff(words[0], U64, ms);
        ReadNatIff(words[1], U32, burst);
      }
      if IsThrottle(v, ms, burst) {
        var a, b :| IsPair(v, a, b) && Spells(a, ms) && Spells(b, burst);
        PairIff(v, a, b);
        ReadNatIff(a, U64, ms);
        ReadNatIff(b, U32, burst);
      }
    }
  }

  lemma ThrottleIsOn(v: string)
    requires v != "off" && ReadThrottle(v).Some?
    ensures ReadThrottle(v).value.Some?
  {
    hide Words, ReadNat;
  }

  /** `off`, which removes the key, or a number of 32 bits and at least one, which goes into the object
      that is there. */
  lemma PacingIsSet(c: Shares, value: string, doc: Document)
    ensures Trim(value) == "off" ==>
      Parse(c, "pacing", value).Some? && Apply(c, Parse(c, "pacing", value).value, doc) == doc - {"pacing"}
    ensures Trim(value) != "off" ==>
      (Parse(c, "pacing", value).Some? <==> exists cap: nat :: IsCap(Trim(value), cap))
    ensures forall cap: nat :: Trim(value) != "off" && IsCap(Trim(value), cap) ==>
      && Parse(c, "pacing", value).Some?
      && Apply(c, Parse(c, "pacing", value).value, doc) ==
           doc["pacing" := Capped(doc, "pacing", cap)]
  {
    assert Name(Pacing) == "pacing";
    hide Name, Trim, Parse, Apply, ReadPacing, Show, IsCap;
    PacingFor(c, "pacing", value, doc);
    PacingIff(Trim(value));
  }

  /** The pacing object with the cap, and what else is there. */
  function Capped(doc: Document, key: string, cap: nat): Json {
    JObj((if key in doc && doc[key].JObj? then doc[key].fields else map[])["maxInFlightPerAccount" := JBare(Show(cap))])
  }

  lemma PacingFor(c: Shares, key: string, value: string, doc: Document)
    requires Name(Pacing) == key
    ensures var r := ReadPacing(Trim(value));
      && (Parse(c, key, value).Some? <==> r.Some?)
      && (r.Some? ==> Apply(c, Parse(c, key, value).value, doc) ==
                      if r.value.None? then doc - {key} else doc[key := Capped(doc, key, r.value.value)])
  {
    hide Name, Trim, Parse, Apply, ReadPacing, Show;
    ReadFor(c, Pacing, key, value);
    if Parse(c, key, value).Some? { Written(c, Parse(c, key, value).value, doc, key); }
  }

  lemma PacingIff(v: string)
    ensures v == "off" ==> ReadPacing(v) == Some(None)
    ensures v != "off" ==> forall cap: nat :: ReadPacing(v) == Some(Some(cap)) <==> IsCap(v, cap)
    ensures v != "off" && ReadPacing(v).Some? ==> ReadPacing(v).value.Some?
  {
    hide ReadNat, Spells;
    if v != "off" {
      forall cap: nat ensures ReadPacing(v) == Some(Some(cap)) <==> IsCap(v, cap) { ReadNatIff(v, U32, cap); }
    }
  }

  ghost predicate IsCap(v: string, cap: nat) { 1 <= cap <= 4294967295 && Spells(v, cap) }

  /** The text is a share: a number, or a percentage with space before its sign where one pleases. */
  predicate IsShare(c: Shares, v: string, f: real) {
    if v != "" && v[|v| - 1] == '%' then
      c.read(Trim(v[..|v| - 1])).Some? && f == c.hundredth(c.read(Trim(v[..|v| - 1])).value)
    else c.read(v) == Some(f)
  }

  lemma ShareIff(c: Shares, v: string, zeroOk: bool, max: real, f: real)
    ensures Share(c, v, zeroOk, max) == Some(f) <==> IsShare(c, v, f) && f <= max && (f > 0.0 || (zeroOk && f == 0.0))
  {
    hide Trim;
  }

  /** Shares of quota: above nothing and at most all of it, or at most half for the reserve, which may be
      nothing. */
  lemma ShareIsSet(c: Shares, value: string, doc: Document, f: real)
    ensures Parse(c, "switchThreshold", value) == Some(SetSwitchThreshold(f)) <==> IsShare(c, Trim(value), f) && 0.0 < f <= 1.0
    ensures Parse(c, "controlReserve", value) == Some(SetControlReserve(f)) <==> IsShare(c, Trim(value), f) && 0.0 <= f <= 0.5
    ensures Parse(c, "switchThreshold", value).Some? ==> Parse(c, "switchThreshold", value).value.SetSwitchThreshold?
    ensures Parse(c, "controlReserve", value).Some? ==> Parse(c, "controlReserve", value).value.SetControlReserve?
    ensures Apply(c, SetSwitchThreshold(f), doc) == doc["switchThreshold" := JBare(c.show(f))]
    ensures Apply(c, SetControlReserve(f), doc) == doc["controlReserve" := JBare(c.show(f))]
  {
    assert Name(SwitchThreshold) == "switchThreshold" && Name(ControlReserve) == "controlReserve";
    hide Name, Trim, Parse, Apply, Share, IsShare;
    ReadFor(c, SwitchThreshold, "switchThreshold", value);
    ReadFor(c, ControlReserve, "controlReserve", value);
    ShareIff(c, Trim(value), false, 1.0, f);
    ShareIff(c, Trim(value), true, 0.5, f);
    Written(c, SetSwitchThreshold(f), doc, "switchThreshold");
    Written(c, SetControlReserve(f), doc, "controlReserve");
  }

  /** `default`, which removes the override, or a share. */
  lemma FableIsSet(c: Shares, value: string, doc: Document, f: real)
    ensures Trim(value) == "default" ==> Parse(c, "fableWeeklyThreshold", value) == Some(SetFableWeeklyThreshold(None))
    ensures Trim(value) != "default" ==>
      && (Parse(c, "fableWeeklyThreshold", value) == Some(SetFableWeeklyThreshold(Some(f))) <==> IsShare(c, Trim(value), f) && 0.0 < f <= 1.0)
      && (Parse(c, "fableWeeklyThreshold", value).Some? ==>
            var s := Parse(c, "fableWeeklyThreshold", value).value; s.SetFableWeeklyThreshold? && s.override.Some?)
    ensures Apply(c, SetFableWeeklyThreshold(None), doc) == doc - {"fableWeeklyThreshold"}
    ensures Apply(c, SetFableWeeklyThreshold(Some(f)), doc) == doc["fableWeeklyThreshold" := JBare(c.show(f))]
  {
    assert Name(FableWeeklyThreshold) == "fableWeeklyThreshold";
    hide Name, Trim, Parse, Apply, Share, IsShare;
    ReadFor(c, FableWeeklyThreshold, "fableWeeklyThreshold", value);
    ShareIff(c, Trim(value), false, 1.0, f);
    Written(c, SetFableWeeklyThreshold(None), doc, "fableWeeklyThreshold");
    Written(c, SetFableWeeklyThreshold(Some(f)), doc, "fableWeeklyThreshold");
  }
}
