/** Bodies on which the two locators part: `metadata.user_id` is any string without the prefix, whose
    closing quote the machine takes without leaving the string. */
module UuidStray {
  import opened Sequences
  import opened Options
  import opened JsonText
  import opened JsonTree
  import opened UuidMachine
  import opened UuidLocator
  import opened UuidAgreement

  const B := Member("", "b", "", "", Str(PREFIX), "", NoMember)
  const A := Member("", "a", "", "", Bare("0"), "", B)

  /** A compact member: `"key":value`. */
  function Compact(key: string, v: Value, rest: Members): Members { Member("", key, "", "", v, "", rest) }

  function User(raw: string): Members { Compact("user_id", Str(raw), NoMember) }

  function Top(raw: string): Members { Compact("metadata", Obj("", User(raw)), A) }

  /** `{"metadata":{"user_id":"<raw>"},"a":0,"b":"account_uuid\":\""}` */
  function Stray(raw: string): Doc { Doc("", Obj("", Top(raw)), "") }

  lemma PrefixIsBody()
    ensures IsStrBody(PREFIX)
  {
    var quote := "\\\"";
    assert StepLen(quote) == 2 && IsStrBody(quote[2..]);
    assert IsStrBody(quote);
    var colon := ":" + quote;
    assert colon[1..] == quote && StepLen(colon) == 1;
    var rest := quote + colon;
    assert rest[2..] == colon && StepLen(rest) == 2;
    assert PREFIX == "account_uuid" + rest;
    PlainFront("account_uuid", rest);
  }

  predicate Plain(key: string) { IsStrBody(key) && Decode(key) == key && !HasLoneSurrogate(key) }

  lemma StrayKeys()
    ensures Plain("metadata") && Plain("user_id") && Plain("a") && Plain("b") && Plain("")
  {
    hide IsStrBody, Decode, HasLoneSurrogate;
    PlainBody("metadata");
    PlainBody("user_id");
    PlainBody("a");
    PlainBody("b");
    PlainBody("");
  }

  lemma ZeroIsToken()
    ensures IsBareToken("0")
  {
    assert "0"[1..] == "";
  }

  predicate Fine(ms: Members) { WellFormedMembers(ms) && KeysReadable(ms) && PlainKeys(ms) }

  lemma CompactIsFine(key: string, v: Value, rest: Members, other: string)
    requires Plain(key) && '\\' !in key && WellFormed(v) && Fine(rest)
    ensures Fine(Compact(key, v, rest))
    ensures other != key && !HasKey(rest, other) ==> !HasKey(Compact(key, v, rest), other)
  {
    hide IsStrBody, Decode, HasLoneSurrogate, WellFormed;
  }

  lemma CompactHas(key: string, v: Value, rest: Members)
    requires Plain(key) && !HasKey(rest, key)
    ensures var m := Compact(key, v, rest);
      HasKey(m, key) && Once(m, key) && ValueOf(m, key) == v && OffsetOf(m, key) == |key| + 3
  {
    hide IsStrBody, Decode, HasLoneSurrogate;
  }

  lemma OthersAreFine()
    ensures Fine(A) && !HasKey(A, "metadata")
  {
    hide IsStrBody, IsBareToken, Plain, Fine;
    StrayKeys();
    ZeroIsToken();
    PrefixIsBody();
    NothingIsFine("metadata");
    CompactIsFine("b", Str(PREFIX), NoMember, "metadata");
    CompactIsFine("a", Bare("0"), B, "metadata");
  }

  lemma NothingIsFine(key: string)
    ensures Fine(NoMember) && !HasKey(NoMember, key)
  {
  }

  /** The members hold `name` once, with this value at this offset. */
  predicate Holds(ms: Members, name: string, v: Value, at: nat) {
    Fine(ms) && Once(ms, name) && HasKey(ms, name) && ValueOf(ms, name) == v && OffsetOf(ms, name) == at
  }

  lemma HoldsField(ms: Members, name: string, v: Value, at: nat, start: nat)
    requires Holds(ms, name, v, at)
    ensures Field(Obj("", ms), start, name) == Some((v, start + 1 + at)) && WellFormed(Obj("", ms))
  {
    hide Once, HasKey, ValueOf, OffsetOf, KeysReadable, PlainKeys, WellFormedMembers;
  }

  lemma TwoFields(top: Members, user: Members, v: Value)
    requires Holds(top, "metadata", Obj("", user), 11) && Holds(user, "user_id", v, 10)
    ensures var d := Doc("", Obj("", top), ""); WellFormedDoc(d) && UserId(d) == Some((v, 23))
  {
    hide Holds, Field, WellFormed;
    HoldsField(top, "metadata", Obj("", user), 11, 0);
    HoldsField(user, "user_id", v, 10, 12);
  }

  lemma TwoAreRegular(top: Members, user: Members, v: Value)
    requires Holds(top, "metadata", Obj("", user), 11) && Holds(user, "user_id", v, 10)
    ensures Regular(Doc("", Obj("", top), ""))
  {
    hide Once, HasKey, ValueOf, OffsetOf, KeysReadable, PlainKeys, WellFormedMembers;
  }

  lemma CompactHolds(key: string, v: Value, rest: Members)
    requires Plain(key) && '\\' !in key && WellFormed(v) && Fine(rest) && !HasKey(rest, key)
    ensures Holds(Compact(key, v, rest), key, v, |key| + 3)
  {
    hide Plain, WellFormed, Fine, HasKey, Once, ValueOf, OffsetOf, Compact;
    CompactIsFine(key, v, rest, "");
    CompactHas(key, v, rest);
  }

  lemma UserHolds(raw: string)
    requires IsStrBody(raw)
    ensures Holds(User(raw), "user_id", Str(raw), 10)
  {
    hide IsStrBody, Plain, Fine, HasKey, Holds;
    StrayKeys();
    NothingIsFine("user_id");
    CompactHolds("user_id", Str(raw), NoMember);
  }

  /** A document whose first member is a `metadata` with the one member `user_id`. */
  lemma MetadataReads(raw: string, rest: Members)
    requires IsStrBody(raw) && Fine(rest) && !HasKey(rest, "metadata")
    ensures var d := Doc("", Obj("", Compact("metadata", Obj("", User(raw)), rest)), "");
      WellFormedDoc(d) && Regular(d) && UserId(d) == Some((Str(raw), 23))
  {
    hide IsStrBody, Plain, Fine, HasKey, Holds, Regular, UserId, WellFormedDoc, WellFormed, User, Field;
    StrayKeys();
    UserHolds(raw);
    HoldsField(User(raw), "user_id", Str(raw), 10, 0);
    CompactHolds("metadata", Obj("", User(raw)), rest);
    var top := Compact("metadata", Obj("", User(raw)), rest);
    TwoFields(top, User(raw), Str(raw));
    TwoAreRegular(top, User(raw), Str(raw));
  }

  /** The document is one both locators are written for. */
  lemma StrayIsRegular(raw: string)
    requires IsStrBody(raw)
    ensures WellFormedDoc(Stray(raw)) && Regular(Stray(raw))
    ensures UserId(Stray(raw)) == Some((Str(raw), 23))
  {
    hide IsStrBody, Fine, HasKey, WellFormedDoc, Regular, UserId;
    OthersAreFine();
    MetadataReads(raw, A);
  }

  /** What follows the `user_id`, cut where the machine thinks strings begin and end. */
  function Rest(): string {
    "}," + ("\"" + ("a" + ("\"" + (":0," + ("\"" + ("b" + ("\"" + (":" + ("\"" + (PREFIX + "\"}"))))))))))
  }

  lemma CompactHead(m: Members, text: string)
    requires m.Member? && m.pre == "" && m.mid == "" && m.sep == ""
    ensures PutHead(m, text) == "\"" + (m.key + ("\"" + (":" + text)))
  {
    EmptyLeft(text);
    EmptyLeft(":" + text);
    EmptyLeft("\"" + (m.key + ("\"" + (":" + text))));
  }

  lemma PutB(tail: string)
    ensures PutMembers(B, tail) == "\"" + ("b" + ("\"" + (":" + ("\"" + (PREFIX + ("\"" + tail))))))
  {
    hide PutHead, PREFIX;
    EmptyLeft(tail);
    CompactHead(B, "\"" + (PREFIX + ("\"" + tail)));
  }

  lemma PutA(tail: string)
    ensures PutMembers(A, tail) == "\"" + ("a" + ("\"" + (":0," + PutMembers(B, tail))))
  {
    hide PutHead;
    var b := PutMembers(B, tail);
    EmptyLeft("," + b);
    CompactHead(A, "0" + ("," + b));
    Three(':', '0', ',', b);
  }

  lemma Three(a: char, b: char, c: char, tail: string)
    ensures [a] + ([b] + ([c] + tail)) == [a, b, c] + tail && [b] + ([c] + tail) == [b, c] + tail
  {
  }

  lemma StrayAfter(raw: string)
    requires UserId(Stray(raw)) == Some((Str(raw), 23)) && Plain("metadata") && Plain("user_id")
    ensures DocAfter(Stray(raw)) == Rest()
  {
    hide Decode, IsStrBody, HasLoneSurrogate, UserId, PutMembers;
    var tail := "}" + "";
    var a := PutMembers(A, tail);
    PutA(tail);
    PutB(tail);
    EmptyLeft("," + a);
    EmptyLeft("}" + ("," + a));
    Three('0', '}', ',', a);
    assert "\"" + tail == "\"}";
  }

  lemma Machine(at: nat)
    ensures Run(InString([ROOT, METADATA], false, ""), Rest(), at).valueStart == Some(at + 30)
  {
    hide Run, Quiet, InString, InTarget, FirstAt, IsStrBody;
    var fs := [ROOT, METADATA];
    var s5 := PREFIX + "\"}";
    var s4 := ":" + ("\"" + s5);
    var s3 := "b" + ("\"" + s4);
    var s2 := ":0," + ("\"" + s3);
    var s1 := "a" + ("\"" + s2);
    AsString(fs, "},", s1, at, at + 3);
    RunInert(fs, "a", "\"" + s2, at + 3, at + 4);
    AsTarget(fs, ":0,", s3, at + 4, at + 9);
    AsString(fs, "b", s4, at + 9, at + 11);
    ColonStays(s5, at + 11);
    PrefixIsBody();
    RunTarget(fs, PREFIX, "}", at + 12);
    assert "\"" + "}" == "\"}";
    PrefixFindsItself();
  }

  lemma PrefixFindsItself()
    ensures FirstAt(PREFIX, PREFIX) == Some(0)
  {
    assert PREFIX[..|PREFIX|] == PREFIX;
  }

  /** Text outside strings, read as if inside one. */
  lemma AsString(fs: seq<Frame>, text: string, tail: string, i: nat, j: nat)
    requires j == i + |text| + 1 && forall k :: 0 <= k < |text| ==> text[k] != '"' && text[k] != '\\' && text[k] >= ' '
    ensures Run(InString(fs, false, ""), text + ("\"" + tail), i) == Run(Quiet(fs), tail, j)
  {
    hide Run;
    PlainBody(text);
    BodyIsScanned(text);
    RunBody(fs, false, "", text, tail, i, j);
  }

  /** Text outside strings, read as if it were the target. */
  lemma AsTarget(fs: seq<Frame>, text: string, tail: string, i: nat, j: nat)
    requires !AwaitsKey(fs) && IsTarget(fs) && '\\' !in text
    requires j == i + |text| + 2 && forall k :: 0 <= k < |text| ==> text[k] != '"' && text[k] >= ' '
    ensures Run(Quiet(fs), "\"" + (text + ("\"" + tail)), i) == Run(InString(fs, false, ""), tail, j)
  {
    hide Run, FirstAt;
    PlainBody(text);
    if FirstAt(text, PREFIX).Some? { PrefixHasBackslash(text); }
    RunTarget(fs, text, tail, i);
  }

  lemma ColonStays(s: string, i: nat)
    ensures Run(Quiet([ROOT, METADATA]), ":" + ("\"" + s), i) == Run(Quiet([ROOT, METADATA]), "\"" + s, i + 1)
  {
    hide Run;
    Byte1(Quiet([ROOT, METADATA]), ':', "\"" + s, i, i + 1);
    assert WithTop([ROOT, METADATA], METADATA) == [ROOT, METADATA];
  }

  /** Whatever string without the prefix `metadata.user_id` is, there is a regular document in which
      the machine returns an offset inside another string. */
  lemma MachineStrays(raw: string)
    requires IsStrBody(raw) && FirstAt(raw, PREFIX).None?
    ensures WellFormedDoc(Stray(raw)) && Regular(Stray(raw)) && UserId(Stray(raw)) == Some((Str(raw), 23))
    ensures Locate(Stray(raw)).None? && Run(START, RenderDoc(Stray(raw)), 0).valueStart == Some(55 + |raw|)
  {
    hide Run, FirstAt, DocAfter, Regular, WellFormedDoc, UserId, RenderDoc, Plain, START, Quiet, InString, Stray, IsStrBody;
    StrayIsRegular(raw);
    StrayKeys();
    StrayAfter(raw);
    ReachTarget(Stray(raw));
    StrOccurrence(raw);
    RunTarget([ROOT, METADATA], raw, Rest(), 23);
    Machine(25 + |raw|);
  }
}
